/** Context compaction: which document details leave the state, how they come back, and how compactions are numbered. */
module ContextCompaction {
  import opened Options
  import opened Sorting

  datatype Stage = AfterInventory | AfterEvidence

  type Fields = map<string, string>

  /** The fields compaction may shorten, next to the facts it must not touch. */
  datatype Document = Document(id: nat, facts: string, preview: string, structure: Fields, keyFields: Fields)

  datatype Prompt = Prompt(facts: string, content: string, rules: seq<string>)

  datatype Removed = Removed(id: nat, preview: string, structure: Fields, keyFields: Fields)

  datatype Plan = Plan(stage: Stage, tokensBefore: nat, reclaimable: nat, shouldCompact: bool,
                       compactPrompt: bool, documentIds: seq<nat>)

  datatype Summary = Summary(id: (nat, Stage, nat), runId: nat, stage: Stage, tokens: nat, index: nat)

  /** The token estimator, an oracle on values. */
  datatype Estimator = Estimator(context: (Prompt, seq<Document>) -> nat, content: string -> nat,
                                 details: (string, Fields, Fields) -> nat)

  datatype Settings = Settings(enabled: bool, threshold: nat, retained: nat)

  const COMPACTED: Fields := map["compacted" := "true"]

  // ----- Planning -----

  function After(s: string, n: nat): string { if n <= |s| then s[n..] else "" }

  function Before(s: string, n: nat): string { if n <= |s| then s[..n] else s }

  function Weight(t: Estimator, retained: nat): Document -> nat {
    (d: Document) => t.details(After(d.preview, retained), d.structure, d.keyFields)
  }

  function Heavy(docs: seq<Document>, weight: Document -> nat): seq<nat> {
    if docs == [] then []
    else
      var last := docs[|docs| - 1];
      Heavy(docs[..|docs| - 1], weight) + if weight(last) > 0 then [last.id] else []
  }

  function TotalWeight(docs: seq<Document>, weight: Document -> nat): nat {
    if docs == [] then 0 else TotalWeight(docs[..|docs| - 1], weight) + weight(docs[|docs| - 1])
  }

  /** What is reclaimed and from where; a plan that is not to be carried out names nothing. */
  function Planned(stage: Stage, prompt: Prompt, docs: seq<Document>, settings: Settings, t: Estimator): Plan {
    var fromPrompt := if prompt.content != "" then t.content(prompt.content) else 0;
    var fromDocs := if stage == AfterEvidence then TotalWeight(docs, Weight(t, settings.retained)) else 0;
    var should := settings.enabled && t.context(prompt, docs) > settings.threshold && fromPrompt + fromDocs > 0;
    Plan(stage, t.context(prompt, docs), fromPrompt + fromDocs, should, prompt.content != "" && should,
         if stage == AfterEvidence && should then Heavy(docs, Weight(t, settings.retained)) else [])
  }

  method BuildPlan(stage: Stage, prompt: Prompt, docs: seq<Document>, settings: Settings, t: Estimator) returns (plan: Plan)
    ensures plan == Planned(stage, prompt, docs, settings, t)
  {
    var before := t.context(prompt, docs);
    var reclaimable := if prompt.content != "" then t.content(prompt.content) else 0;
    ghost var fromPrompt := reclaimable;
    var ids := [];
    if stage == AfterEvidence {
      for n := 0 to |docs|
        invariant ids == Heavy(docs[..n], Weight(t, settings.retained))
        invariant reclaimable == fromPrompt + TotalWeight(docs[..n], Weight(t, settings.retained))
      {
        assert docs[..n + 1][..n] == docs[..n];
        var tokens := t.details(After(docs[n].preview, settings.retained), docs[n].structure, docs[n].keyFields);
        if tokens > 0 {
          ids := ids + [docs[n].id];
          reclaimable := reclaimable + tokens;
        }
      }
      assert docs[..|docs|] == docs;
    }
    var should := settings.enabled && before > settings.threshold && reclaimable > 0;
    plan := Plan(stage, before, reclaimable, should, prompt.content != "" && should, if should then ids else []);
  }

  // ----- Compacting -----

  function Shortened(d: Document, retained: nat): Document {
    d.(preview := Before(d.preview, retained), structure := COMPACTED, keyFields := map[])
  }

  function Compacted(docs: seq<Document>, ids: set<nat>, retained: nat): seq<Document> {
    seq(|docs|, i requires 0 <= i < |docs| => if docs[i].id in ids then Shortened(docs[i], retained) else docs[i])
  }

  function Details(d: Document): Removed {
    Removed(d.id, d.preview, d.structure, d.keyFields)
  }

  function RemovedFrom(docs: seq<Document>, ids: set<nat>): seq<Removed> {
    if docs == [] then []
    else (if docs[0].id in ids then [Details(docs[0])] else []) + RemovedFrom(docs[1..], ids)
  }

  method ApplyCompaction(plan: Plan, prompt: Prompt, docs: seq<Document>, retained: int)
    returns (r: Result<(Prompt, seq<Document>, seq<Removed>)>)
    ensures r.Err? <==> !plan.shouldCompact || retained < 0
    ensures r.Ok? ==> r.value.0 == if plan.compactPrompt then prompt.(content := "", rules := []) else prompt
    ensures r.Ok? ==> r.value.1 == Compacted(docs, Elements(plan.documentIds), retained)
    ensures r.Ok? ==> r.value.2 == RemovedFrom(docs, Elements(plan.documentIds))
  {
    if !plan.shouldCompact || retained < 0 {
      return Err(ValueError);
    }
    ghost var ids := Elements(plan.documentIds);
    var compacted, removed := [], [];
    for n := 0 to |docs|
      invariant |compacted| == n && forall i | 0 <= i < n :: compacted[i] == Compacted(docs, ids, retained)[i]
      invariant removed + RemovedFrom(docs[n..], ids) == RemovedFrom(docs, ids)
    {
      var d := docs[n];
      assert docs[n..][1..] == docs[n + 1..];
      if d.id in plan.documentIds {
        removed := removed + [Details(d)];
        d := d.(preview := Before(d.preview, retained), structure := COMPACTED, keyFields := map[]);
      }
      compacted := compacted + [d];
    }
    assert compacted == Compacted(docs, ids, retained);
    return Ok((if plan.compactPrompt then prompt.(content := "", rules := []) else prompt, compacted, removed));
  }

  // ----- What compaction keeps -----

  /** Puts removed details back, in order, into the documents they came from. */
  function Restored(docs: seq<Document>, removed: seq<Removed>): seq<Document> {
    if docs == [] then []
    else if removed != [] && removed[0].id == docs[0].id then
      [docs[0].(preview := removed[0].preview, structure := removed[0].structure, keyFields := removed[0].keyFields)]
      + Restored(docs[1..], removed[1..])
    else [docs[0]] + Restored(docs[1..], removed)
  }

  lemma {:induction false} RemovedAreTargets(docs: seq<Document>, ids: set<nat>)
    ensures forall r <- RemovedFrom(docs, ids) :: r.id in ids
  {
    if docs != [] {
      RemovedAreTargets(docs[1..], ids);
    }
  }

  /** The compacted documents and the removed details together are the original documents. */
  lemma {:induction false} CompactionRoundTrip(docs: seq<Document>, ids: set<nat>, retained: nat)
    ensures Restored(Compacted(docs, ids, retained), RemovedFrom(docs, ids)) == docs
  {
    if docs != [] {
      CompactionRoundTrip(docs[1..], ids, retained);
      RemovedAreTargets(docs[1..], ids);
      var compacted, removed, rest := Compacted(docs, ids, retained), RemovedFrom(docs, ids), RemovedFrom(docs[1..], ids);
      assert compacted[1..] == Compacted(docs[1..], ids, retained);
      if docs[0].id in ids {
        assert removed == [Details(docs[0])] + rest && removed[1..] == rest;
        assert Restored(compacted, removed) == [docs[0]] + Restored(compacted[1..], rest);
      } else {
        assert removed == rest && (removed != [] ==> removed[0] in removed);
        assert Restored(compacted, removed) == [docs[0]] + Restored(compacted[1..], rest);
      }
      assert docs == [docs[0]] + docs[1..];
    }
  }

  /** Only three fields of target documents change, and compacting again changes no document. */
  lemma CompactionTouchesThreeFields(docs: seq<Document>, ids: set<nat>, retained: nat)
    ensures |Compacted(docs, ids, retained)| == |docs|
    ensures forall i | 0 <= i < |docs| ::
              var d := Compacted(docs, ids, retained)[i];
              d.id == docs[i].id && d.facts == docs[i].facts && (docs[i].id !in ids ==> d == docs[i])
    ensures Compacted(Compacted(docs, ids, retained), ids, retained) == Compacted(docs, ids, retained)
  {
    forall i | 0 <= i < |docs|
      ensures Compacted(Compacted(docs, ids, retained), ids, retained)[i] == Compacted(docs, ids, retained)[i]
    {
    }
  }

  lemma {:induction false} HeavyMeans(docs: seq<Document>, weight: Document -> nat, id: nat)
    ensures id in Heavy(docs, weight) <==> exists d <- docs :: d.id == id && weight(d) > 0
    ensures TotalWeight(docs, weight) > 0 <==> Heavy(docs, weight) != []
  {
    if docs != [] {
      HeavyMeans(docs[..|docs| - 1], weight, id);
      assert forall d :: d in docs <==> d in docs[..|docs| - 1] || d == docs[|docs| - 1];
    }
  }

  /** A plan acts only where there is something to reclaim: it names a document exactly when its details carry weight. */
  lemma PlanNamesWhatItReclaims(stage: Stage, prompt: Prompt, docs: seq<Document>, settings: Settings, t: Estimator, id: nat)
    ensures var plan := Planned(stage, prompt, docs, settings, t);
            && (id in plan.documentIds <==>
                  stage == AfterEvidence && plan.shouldCompact && exists d <- docs :: d.id == id && Weight(t, settings.retained)(d) > 0)
            && (plan.shouldCompact ==> plan.compactPrompt || plan.documentIds != [])
  {
    HeavyMeans(docs, Weight(t, settings.retained), id);
  }

  // ----- Sequences of compactions -----

  datatype Context = Context(runId: nat, prompt: Prompt, docs: seq<Document>, summaries: seq<Summary>, payloads: seq<seq<Removed>>)

  function SummaryFor(c: Context, stage: Stage, tokens: nat, index: nat): Summary {
    Summary((c.runId, stage, index), c.runId, stage, tokens, index)
  }

  /** Adds a summary unless its identifier, a digest of run, stage and index, is already there. */
  function Appended(summaries: seq<Summary>, s: Summary): seq<Summary> {
    if exists x <- summaries :: x.id == s.id then summaries else summaries + [s]
  }

  /** One pass of the subgraph: plan, and if the plan says so compact, number and append. */
  method RunCompaction(c: Context, stage: Stage, settings: Settings, t: Estimator) returns (next: Context)
    ensures var plan := Planned(stage, c.prompt, c.docs, settings, t);
            next == if plan.shouldCompact then
                      Compaction(c, stage, Elements(plan.documentIds), settings.retained,
                                 if plan.compactPrompt then c.prompt.(content := "", rules := []) else c.prompt, t)
                    else c
    ensures stage == AfterInventory ==> next.docs == c.docs
  {
    var plan := BuildPlan(stage, c.prompt, c.docs, settings, t);
    if !plan.shouldCompact {
      return c;
    }
    var applied := ApplyCompaction(plan, c.prompt, c.docs, settings.retained);
    var (prompt, docs, removed) := applied.value;
    var summary := SummaryFor(c, stage, t.context(prompt, docs), |c.summaries| + 1);
    next := c.(prompt := prompt, docs := docs, summaries := Appended(c.summaries, summary), payloads := c.payloads + [removed]);
    ghost var ids := Elements(plan.documentIds);
    assert next == Compaction(c, stage, ids, settings.retained, prompt, t);
    if stage == AfterInventory {
      assert ids == {} && docs == c.docs;
    }
  }

  ghost function Compaction(c: Context, stage: Stage, ids: set<nat>, retained: nat, prompt: Prompt, t: Estimator): Context {
    var docs := Compacted(c.docs, ids, retained);
    c.(prompt := prompt, docs := docs, payloads := c.payloads + [RemovedFrom(c.docs, ids)],
       summaries := Appended(c.summaries, SummaryFor(c, stage, t.context(prompt, docs), |c.summaries| + 1)))
  }

  /** What varies from one compaction to the next. */
  datatype Round = Round(stage: Stage, ids: set<nat>, retained: nat, prompt: Prompt, t: Estimator)

  ghost function AfterRounds(c: Context, rounds: seq<Round>): Context {
    if rounds == [] then c
    else
      var r := rounds[|rounds| - 1];
      Compaction(AfterRounds(c, rounds[..|rounds| - 1]), r.stage, r.ids, r.retained, r.prompt, r.t)
  }

  /** Summaries are numbered 1, 2, 3, ... and their identifiers carry their number. */
  ghost predicate Numbered(c: Context) {
    forall i | 0 <= i < |c.summaries| :: c.summaries[i].index == i + 1 && c.summaries[i].id.2 == i + 1
  }

  /** Any sequence of compactions appends exactly one summary each, numbered without gap or repetition. */
  lemma {:induction false} SummariesStayNumbered(c: Context, rounds: seq<Round>)
    requires Numbered(c)
    ensures var d := AfterRounds(c, rounds);
            Numbered(d) && |d.summaries| == |c.summaries| + |rounds| && d.summaries[..|c.summaries|] == c.summaries
  {
    if rounds != [] {
      SummariesStayNumbered(c, rounds[..|rounds| - 1]);
      var before := AfterRounds(c, rounds[..|rounds| - 1]);
      assert forall x <- before.summaries :: x.id.2 != |before.summaries| + 1;
    }
  }

  /** Undoes compactions from the last payload to the first. */
  function RestoredAll(docs: seq<Document>, payloads: seq<seq<Removed>>): seq<Document>
    decreases |payloads|
  {
    if payloads == [] then docs
    else RestoredAll(Restored(docs, payloads[|payloads| - 1]), payloads[..|payloads| - 1])
  }

  /** However often and with whatever settings documents were compacted, the payloads rebuild the originals. */
  lemma {:induction false} AllCompactionsRoundTrip(c: Context, rounds: seq<Round>)
    requires c.payloads == []
    ensures RestoredAll(AfterRounds(c, rounds).docs, AfterRounds(c, rounds).payloads) == c.docs
    ensures |AfterRounds(c, rounds).payloads| == |rounds|
  {
    if rounds != [] {
      var r, before := rounds[|rounds| - 1], AfterRounds(c, rounds[..|rounds| - 1]);
      AllCompactionsRoundTrip(c, rounds[..|rounds| - 1]);
      CompactionRoundTrip(before.docs, r.ids, r.retained);
      var after := AfterRounds(c, rounds);
      assert after.payloads[..|after.payloads| - 1] == before.payloads;
    }
  }

  /** The facts of every document survive any sequence of compactions, in place. */
  lemma {:induction false} FactsSurvive(c: Context, rounds: seq<Round>)
    ensures var d := AfterRounds(c, rounds).docs;
            |d| == |c.docs| && forall i | 0 <= i < |d| :: d[i].id == c.docs[i].id && d[i].facts == c.docs[i].facts
  {
    if rounds != [] {
      FactsSurvive(c, rounds[..|rounds| - 1]);
    }
  }

  /** Appending the same summary twice is appending it once. */
  lemma AppendIsIdempotent(summaries: seq<Summary>, s: Summary)
    ensures Appended(Appended(summaries, s), s) == Appended(summaries, s)
  {
    assert !(exists x <- summaries :: x.id == s.id) ==> s in summaries + [s];
  }

  // ----- What a plan and a compaction amount to -----

  /** What compaction takes off a preview. */
  function Tail(s: string, retained: nat): string {
    if retained < |s| then s[retained..] else ""
  }

  function TokensOf(t: Estimator, d: Document, retained: nat): nat {
    t.details(Tail(d.preview, retained), d.structure, d.keyFields)
  }

  lemma WeightIsOfDetails(t: Estimator, d: Document, retained: nat)
    ensures Weight(t, retained)(d) == TokensOf(t, d, retained)
  {
    assert After(d.preview, retained) == Tail(d.preview, retained);
  }

  /**
   * A plan acts exactly when compaction is enabled, the context is above the
   * threshold and there is something to reclaim: tokens of the prompt's content,
   * or after the evidence stage details of some document.
   */
  lemma PlanActsExactly(stage: Stage, prompt: Prompt, docs: seq<Document>, settings: Settings, t: Estimator)
    ensures var plan := Planned(stage, prompt, docs, settings, t);
            && plan.stage == stage && plan.tokensBefore == t.context(prompt, docs)
            && (plan.shouldCompact <==>
                  && settings.enabled && t.context(prompt, docs) > settings.threshold
                  && ((prompt.content != "" && t.content(prompt.content) > 0)
                      || (stage == AfterEvidence && exists i | 0 <= i < |docs| :: TokensOf(t, docs[i], settings.retained) > 0)))
            && (plan.compactPrompt <==> plan.shouldCompact && prompt.content != "")
    ensures forall id :: id in Planned(stage, prompt, docs, settings, t).documentIds <==>
              && stage == AfterEvidence && Planned(stage, prompt, docs, settings, t).shouldCompact
              && exists i | 0 <= i < |docs| :: docs[i].id == id && TokensOf(t, docs[i], settings.retained) > 0
  {
    var weight := Weight(t, settings.retained);
    forall i | 0 <= i < |docs| ensures weight(docs[i]) == TokensOf(t, docs[i], settings.retained) && docs[i] in docs {
      WeightIsOfDetails(t, docs[i], settings.retained);
    }
    forall id
      ensures id in Heavy(docs, weight) <==> exists i | 0 <= i < |docs| :: docs[i].id == id && TokensOf(t, docs[i], settings.retained) > 0
    {
      HeavyMeans(docs, weight, id);
    }
    HeavyMeans(docs, weight, 0);
    if i :| 0 <= i < |docs| && TokensOf(t, docs[i], settings.retained) > 0 {
      assert docs[i].id in Heavy(docs, weight);
    }
    if Heavy(docs, weight) != [] {
      assert Heavy(docs, weight)[0] in Heavy(docs, weight);
    }
  }

  /** Every document adds the tokens of its details to what is reclaimed, after the inventory stage none does. */
  lemma ReclaimableAdds(stage: Stage, prompt: Prompt, docs: seq<Document>, d: Document, settings: Settings, t: Estimator)
    ensures Planned(stage, prompt, [], settings, t).reclaimable == if prompt.content != "" then t.content(prompt.content) else 0
    ensures Planned(stage, prompt, docs + [d], settings, t).reclaimable
            == Planned(stage, prompt, docs, settings, t).reclaimable
               + if stage == AfterEvidence then TokensOf(t, d, settings.retained) else 0
  {
    assert (docs + [d])[..|docs|] == docs;
    WeightIsOfDetails(t, d, settings.retained);
  }

  /** A target keeps the beginning of its preview, and the marker in place of its structure and key fields; its details are what it was. */
  lemma TargetsKeepTheirBeginning(docs: seq<Document>, ids: set<nat>, retained: nat, i: nat)
    requires i < |docs| && docs[i].id in ids
    ensures var d, short := docs[i], Compacted(docs, ids, retained)[i];
            && short.preview + Tail(d.preview, retained) == d.preview && |short.preview| <= retained
            && (|d.preview| >= retained ==> |short.preview| == retained)
            && short.structure == map["compacted" := "true"] && short.keyFields == map[]
  {
  }

  /** The details that leave are those of the targets, in order, as they were. */
  lemma {:induction false} DetailsAreComplete(docs: seq<Document>, ids: set<nat>, i: nat)
    requires i < |docs| && docs[i].id in ids
    ensures Removed(docs[i].id, docs[i].preview, docs[i].structure, docs[i].keyFields) in RemovedFrom(docs, ids)
  {
    if i > 0 {
      DetailsAreComplete(docs[1..], ids, i - 1);
    }
  }

  /** A compaction appends the summary with the next number and the tokens of the context it leaves. */
  lemma SummaryIsNext(c: Context, stage: Stage, ids: set<nat>, retained: nat, prompt: Prompt, t: Estimator)
    requires Numbered(c)
    ensures var after, n := Compaction(c, stage, ids, retained, prompt, t), |c.summaries| + 1;
            && after.summaries == c.summaries + [Summary((c.runId, stage, n), c.runId, stage, t.context(after.prompt, after.docs), n)]
            && after.prompt == prompt && after.runId == c.runId
            && |after.payloads| == |c.payloads| + 1 && after.payloads[..|c.payloads|] == c.payloads
  {
    assert forall x <- c.summaries :: x.id.2 != |c.summaries| + 1;
  }
}
