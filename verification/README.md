# Verified model of the file-version governance agent

This project models the deterministic core of the agent in Dafny and proves what
its parts promise: the leased job queue and its workers, the grouping of files
into versions, the recommendation rules with their second opinion, the matching
of PDF and delivery evidence, error recovery, and four smaller kernels.  Run
`dafny verify dfyconfig.toml` to check it.

## How the model is laid out

| file | what it models |
|---|---|
| `Options.dfy`, `Arithmetic.dfy`, `Sorting.dfy`, `RecordMerge.dfy`, `GroupIndex.dfy` | optional and fallible values, minimum and maximum, ordered lists, the keyed merge of graph state, the index of files by group |
| `JobRows.dfy`, `JobHistory.dfy`, `JobQueueProperties.dfy`, `JobQueueOutcomes.dfy` | one job with its lease as a row, transactions on the tables as a transition system, what holds of every history, and what each call brings about |
| `JobQueueService.dfy`, `Worker.dfy` | the queue as a class over the job and lease tables, each method refining one transaction; the background worker as its client |
| `Connectivity.dfy`, `UnionFind.dfy`, `DocumentGrouping.dfy`, `GroupMean.dfy`, `GroupingOrder.dfy`, `Similarity.dfy` | components of a graph, the in-place parent map, the grouping service, what a group's confidence is, when the order of the files shows, the pair score |
| `BusinessEvidence.dfy`, `Recommendation.dfy`, `RecommendationPipeline.dfy`, `RecommendationJudge.dfy`, `RecommendationOutcomes.dfy` | evidence rules, candidate scores and selection, the rule nodes in order, shortlist and fusion, and what all of them amount to |
| `PdfMatching.dfy`, `EvidenceGraph.dfy`, `DeliveryMatching.dfy` | PDF sources, parallel workers with join and validation, delivery entries |
| `ErrorRecovery.dfy`, `ErrorRecoveryProperties.dfy`, `RecoveryOutcomes.dfy` | the nodes of the recovery subgraph, what its runs and sequences of runs guarantee, and which error a run takes and what it does to the others |
| `TextNormalizer.dfy`, `TextLayout.dfy`, `NormalizerIdempotence.dfy` | text normalisation, what survives it and when it is idempotent |
| `ContextCompaction.dfy`, `Inventory.dfy`, `LlmConfig.dfy`, `ConfigOutcomes.dfy` | context compaction, the parse loop, model configuration and what an accepted one says |

Code that changes state step by step is a class or a method with loops, proved
against a specification function or predicate; the theorems are lemmas about
those.  For each component some of them say what the result means without the
specification's own helpers, and with the repository's constants written out.  Identifiers that are only compared are numbers standing for their rank
in string order.  Candidate and match scores are whole ten-thousandths, the
precision to which the code rounds; pair scores for grouping are reals.
Digests, hashes and derived identifiers are represented by the values they are
digests of, so two are equal exactly when those values are.

## What the code does not do as documented

Each of these is proved with a concrete case and the exact condition under which
the promise holds; the model follows the code.

- Grouping is said to be stable, but the sequence matcher is not symmetric, and
  the pair score is taken in list order.  The order of every list of files from
  a set is invisible if and only if each pair of them scores the same in both
  orders or is linked in neither (`GroupingOrder.OrderInvisibleExactly`,
  `GroupingOrder.OrderMattersWitness`).
- An approval that a confirmed delivery cites is reported as counted through that
  delivery.  A rule that raises leaves the decision before it in the state, so
  one delivery that names another group discards the boosts of all of them; the
  delivery then counts for nothing, and neither does the approval
  (`RecommendationPipeline.DeliveryCountsExactly`,
  `RecommendationPipeline.ForeignDeliveryLosesApproval`,
  `RecommendationPipeline.LostApprovalWitness`).
- Selection breaks ties by modification time and fusion by identifier, so fusion
  can recommend a file that neither the rules nor the Judge chose
  (`RecommendationJudge.ThirdFileExactly`, `RecommendationJudge.ThirdFileWitness`).
- The risk flag for evidence that demands a review compares with an action text
  that does not exist and is never raised
  (`RecommendationJudge.EvidenceFlagIsNeverRaised`,
  `RecommendationJudge.EvidenceFlagWitness`).
- A PDF whose own group lists an unknown file makes job creation raise, which
  loses the error that had just been recorded about the unknown file
  (`EvidenceGraph.CreatePdfMatchJobs`, `EvidenceGraph.LookupFailureWitness`).
- The human choice of one recovery is still there in the next: an earlier "skip
  file" replaces a later error's fallback, and an earlier "retry" removes its
  delay (`ErrorRecoveryProperties.StaleSkipReplacesFallback`,
  `ErrorRecoveryProperties.StaleSkipWitness`,
  `ErrorRecoveryProperties.StaleRetryDropsBackoff`,
  `ErrorRecoveryProperties.StaleRetryWitness`).
- The text normaliser is not idempotent when removing a control character lets
  NFKC compose its neighbours: it is exactly for the texts whose NFKC form is
  still in NFKC form once the control characters are deleted
  (`NormalizerIdempotence.IdempotentExactlyWhenDeletionKeepsForm`,
  `TextNormalizer.NotIdempotentWitness`).
- An inventory repeated after a file changed keeps the old document next to the
  new one and reports an inconsistency (`Inventory.InventoryConsistentExactlyWhen`,
  `Inventory.ChangedFileWitness`).

## Model

| member | source | states |
|---|---|---|
| `JobRows.StepRowValid` | app/runtime/job_queue.py:301-628 | Every transaction keeps a row consistent: an active lease exactly when the job is leased or running, held by the worker the job names; attempt count within its limit; resume request, interrupt and timestamps in step with the status. |
| `JobRows.NewRowValid` | app/storage/repositories.py:505-562 | A newly enqueued row satisfies the same invariant. |
| `JobRows.ExpiredLeaseBelongsToHeldJob` | app/runtime/job_queue.py:577-585 | An expired active lease always belongs to a leased or running job of the same worker, so the defensive branch of the sweep is never taken and settling the lease cannot raise. |
| `JobHistory.ReachableValid` | app/runtime/job_queue.py:181-628 | Whatever the interleaving of callers, workers and sweeps, and whatever the clocks, every reachable state satisfies the row invariant and no two jobs share a run. |
| `JobHistory.HistoryBalanced` | app/runtime/job_queue.py:301-547 | After any history the attempt and resume counters of a job agree with the claims, settlements and resume requests that the history accepted. |
| `JobQueueProperties.ClaimAccounting` | app/runtime/job_queue.py:301-547 | Claims equal attempts plus applied resumes, plus one for a resume attempt in flight, plus one for a resume attempt that finally failed at the limit; every claim but the current one is settled exactly once; claims are bounded by the attempt limit plus the accepted resumes. |
| `JobQueueProperties.StepSpendsClaim` | app/storage/repositories.py:579-669 | Without a new resume request no transaction refills the claim budget, and a claim uses one unit of it. |
| `JobQueueProperties.ClaimsRunOut` | app/runtime/job_queue.py:301-355 | Over any continuation without a new resume request, further claims plus the remaining budget never exceed the budget there was. |
| `JobQueueProperties.ResumesGrow` | app/storage/repositories.py:671-717 | The number of accepted resume requests never falls along a history. |
| `JobQueueProperties.OwnerCallNeedsOpenClaim` | app/runtime/job_queue.py:357-547 | mark_running, heartbeat, finish and fail_or_requeue are accepted only from the worker that made the last claim, while that claim is unsettled. |
| `JobQueueProperties.OneOwnerAtATime` | app/storage/repositories.py:1109-1177 | In no state can two workers both have an owner call on the same job accepted. |
| `JobQueueProperties.LockedOut` | app/runtime/job_queue.py:357-547 | A worker that does not hold a job stays locked out of every owner call, through any calls of others, until it claims the job again. |
| `JobQueueProperties.HeldUnlessEvicted` | app/runtime/job_queue.py:549-628 | A worker that is executing keeps its job exactly until a sweep evicts it. |
| `JobQueueProperties.FinishSucceedsUnlessEvicted` | app/runtime/job_queue.py:421-476 | The closing call of an executing worker is accepted if and only if no sweep evicted it meanwhile. |
| `JobQueueProperties.TerminalRowIsFrozen` | app/runtime/job_queue.py:421-547 | A completed, partial or failed job is never left and its row never changes again. |
| `JobQueueProperties.NothingIsStranded` | app/storage/repositories.py:579-669 | Every unfinished job is held, claimable once its time has come, or waiting for an answer. |
| `JobQueueOutcomes.RetriedWhileClaimsRemain` | app/runtime/job_queue.py:478-547 | Over every history an accepted failure report or expiry fails the job if and only if no claim is left; otherwise it can be claimed at exactly the instants from its delay on (for a sweep at once) with the same resume request pending. |
| `JobQueueOutcomes.SweepTakesExactlyOverdueJobs` | app/runtime/job_queue.py:549-628 | A sweep takes a job exactly when its last accepted claim or heartbeat is at least the leased seconds ago, so a worker that beats in time is never evicted. |
| `JobQueueOutcomes.HolderMayBeatAndStartOnce` | app/runtime/job_queue.py:357-419 | Exactly the worker of the last open claim may beat, and it may report its start exactly once per claim. |
| `JobQueueOutcomes.ClaimHandsOver` | app/storage/repositories.py:579-669 | A claim hands over the resume request as it was submitted and counts an attempt exactly when there is none. |
| `JobQueueOutcomes.EnqueueMakesClaimable` | app/storage/repositories.py:505-562 | A job is accepted exactly when it asks for a claim and its identifier and run are new; it has all its attempts and is due from its instant on. |
| `JobQueueOutcomes.FinishStoresResult` | app/runtime/job_queue.py:421-476 | An accepted result is stored as reported, a pending resume counts as applied, and no claim is possible afterwards. |
| `JobQueueOutcomes.ResumeAcceptedExactly` | app/runtime/job_queue.py:247-299 | A new resume request is accepted exactly while the job waits for that interrupt, its value fits and its identifier differs from the last accepted one; the job is then claimable at once with that value. |
| `JobQueueOutcomes.InstantsAreThoseOfCalls` | app/storage/repositories.py:579-900 | The instants in job and lease rows are those of the calls that set them. |
| `JobQueueProperties.StepKeepsRequestIdentity` | app/storage/repositories.py:671-717 | Only a new resume request replaces the identity of the stored one. |
| `JobQueueProperties.ResubmissionIsIdempotent` | app/runtime/job_queue.py:247-299 | Submitting the same resume request again is accepted and changes nothing however far the job has moved, as long as no newer request was taken. |
| `JobQueueService.ExpireAllSettles` | app/runtime/job_queue.py:549-628 | Every listed job loses its lease, and its retry decision is taken on the row it had before the sweep. |
| `JobQueueService.ExpireAllTouchesListed` | app/runtime/job_queue.py:549-628 | The sweep touches no job that is not listed. |
| `JobQueueService.NothingExpiredIsLeft` | app/runtime/job_queue.py:549-628 | When every expired lease is listed, none is left after the sweep. |
| `JobQueueService.JobQueue.Enqueue` | app/runtime/job_queue.py:181-206 | Enqueueing inserts one queued row, rejects bad arguments and repeated identifiers or runs, and leaves the tables alone when it raises. |
| `JobQueueService.JobQueue.FirstClaimable` | app/storage/repositories.py:579-669 | The job a claim takes is the first claimable one by availability, creation time and identifier, and there is none exactly when no job is claimable. |
| `JobQueueService.JobQueue.Claim` | app/runtime/job_queue.py:301-355 | A claim leases that job, counting an attempt for a normal claim and none for a pending resume, or leaves the tables unchanged when nothing is claimable or the arguments are bad. |
| `JobQueueService.JobQueue.MarkRunning` | app/runtime/job_queue.py:357-387 | Only the lease holder moves a leased job to running; otherwise the call raises and nothing changes. |
| `JobQueueService.JobQueue.Heartbeat` | app/runtime/job_queue.py:389-419 | Only the holder of the active lease extends it; otherwise the call raises and nothing changes. |
| `JobQueueService.JobQueue.Finish` | app/runtime/job_queue.py:421-476 | The holder stores the outcome and interrupt, completes an applied resume and releases the lease in one transaction; otherwise the call raises and nothing changes. |
| `JobQueueService.JobQueue.FailOrRequeue` | app/runtime/job_queue.py:478-547 | The holder's failure is requeued with its delay while attempts remain and failed otherwise, with the lease released in the same transaction. |
| `JobQueueService.JobQueue.Retried` | app/storage/repositories.py:820-900 | The retry decision shared by failures and expiries, with the attempt counter capped at its limit. |
| `JobQueueService.JobQueue.SubmitResume` | app/runtime/job_queue.py:247-299 | A resume request is accepted only for a waiting job or as a repetition, checked against the pending interrupt, and queues exactly that job. |
| `JobQueueService.JobQueue.QueueResume` | app/storage/repositories.py:671-717 | Queueing a resume resets the row for a resume claim and keeps its attempt counter. |
| `JobQueueService.JobQueue.ListExpired` | app/storage/repositories.py:1252-1278 | The expired active leases in the order of expiry, at most the limit, and all of them when the limit is not reached. |
| `JobQueueService.JobQueue.ExpireOne` | app/runtime/job_queue.py:571-625 | One round of the sweep settles one expired lease through the retry decision and never raises. |
| `JobQueueService.JobQueue.RequeueExpired` | app/runtime/job_queue.py:549-628 | The sweep settles the earliest expired leases, at most the limit, in one transaction that raises only for a bad limit; nothing else is touched, and nothing expired is left when the limit was not reached. |
| `Worker.ClosingAJob` | app/runtime/worker.py:195-272 | A worker that was not evicted always gets rid of its job, with the mapped status when it has a result to report and through the retry decision otherwise; an evicted worker changes nothing and its call raises. |
| `Worker.ResultBecomesStatus` | app/runtime/worker.py:195-272 | For a worker that was not evicted an interrupt makes the job wait, a final graph status is stored, and whatever cannot be stored fails the job exactly when its attempts are used up. |
| `Worker.HeartbeatFailsWhenEvicted` | app/runtime/worker.py:149-170 | A heartbeat fails exactly when the worker has been evicted. |
| `Worker.BackgroundWorker.Beat` | app/runtime/worker.py:149-170 | One turn of the heartbeat loop makes one heartbeat call, stops exactly when it raises and remembers that it did. |
| `Worker.BackgroundWorker.EndJob` | app/runtime/worker.py:238-272 | The end of run_once makes the closing call and falls back to the retry decision, as the close of a job is specified. |
| `UnionFind.HalvingKeepsRoots` | app/services/document_grouping.py:331-336 | Path halving moves no representative. |
| `UnionFind.LinkMovesOneClass` | app/services/document_grouping.py:338-345 | Hanging a root below a smaller one redirects exactly the elements of that class. |
| `UnionFind.SameRootIffConnected` | app/services/document_grouping.py:329-345 | Two files have the same root if and only if a chain of united pairs links them. |
| `UnionFind.RootIsSmallest` | app/services/document_grouping.py:338-345 | The root of a class is the smallest identifier of its component. |
| `UnionFind.UniteRepresents` | app/services/document_grouping.py:338-345 | After uniting a pair the classes are the components of the pairs united so far, the new one included. |
| `UnionFind.DisjointSets.Find` | app/services/document_grouping.py:331-336 | find terminates, returns the root, and changes no root. |
| `UnionFind.DisjointSets.Union` | app/services/document_grouping.py:338-345 | union merges the two classes below the smaller root. |
| `DocumentGrouping.ScorePairs` | app/services/document_grouping.py:347-364 | Every pair is scored once, the earlier file on the left, and exactly the pairs that reach the threshold are united. |
| `DocumentGrouping.CollectClasses` | app/services/document_grouping.py:366-368 | Files are listed by root, in the order in which roots are first met. |
| `DocumentGrouping.RenderGroup` | app/services/document_grouping.py:370-401 | A group's confidence is the mean of its linking pairs; without any it is one and the single-file marker is set. |
| `DocumentGrouping.GroupRelatedDocuments` | app/services/document_grouping.py:273-402 | The service raises exactly for a threshold outside [0, 1] or repeated identifiers; otherwise its result is the grouping that the specification describes. |
| `DocumentGrouping.GroupsAreComponents` | app/services/document_grouping.py:329-402 | The groups partition the files, and two files share a group if and only if a chain of pairs at or above the threshold links them. |
| `DocumentGrouping.GroupingIsUnique` | app/services/document_grouping.py:366-402 | The specification leaves no freedom: the result depends on the set of files and the recorded scores only. |
| `DocumentGrouping.OrderIndependence` | app/services/document_grouping.py:348-402 | If the score gives both orders of every pair the same linking score, or links neither, the result does not depend on the order of the files. |
| `DocumentGrouping.TwoFilesOrderMatters` | app/services/document_grouping.py:348-402 | For two files that condition is exact: the order is invisible if and only if the two scores agree or neither links. |
| `GroupingOrder.OrderInvisibleExactly` | app/services/document_grouping.py:348-402 | Grouping ignores the order of every list of files drawn from a set if and only if the score gives both orders of each pair the same linking score, or links the pair in neither. |
| `GroupingOrder.OrderMattersWitness` | app/services/document_grouping.py:348-402 | A pair that scores 0.8 one way and 0.5 the other is one group or two at the threshold 0.72, depending on which file is listed first. |
| `DocumentGrouping.HigherThresholdRefines` | app/services/document_grouping.py:361-364 | Raising the threshold only splits groups. |
| `DocumentGrouping.FullScoreSharesGroup` | app/services/document_grouping.py:361-364 | Files that score at the top of the scale share a group at every threshold. |
| `DocumentGrouping.GroupConfidence` | app/services/document_grouping.py:389-400 | The single-file marker appears exactly on singletons; the mean confidence of any other group lies between the threshold and one. |
| `GroupMean.ConfidenceIsMeanOfLinks` | app/services/document_grouping.py:377-393 | For every group of a grouping the confidence times the number of linking pairs inside it is the sum of their recorded scores, over the set of those pairs; without any it is one. |
| `GroupMean.ThreeFilesWitness` | app/services/document_grouping.py:390 | Three files that link with 0.9, 0.8 and 0.75 have a confidence of a third of 2.45. |
| `GroupMean.GroupsComeInOrder` | app/services/document_grouping.py:402 | Groups come in the order of their labels and, for equal labels, of their identifiers. |
| `Similarity.ScoreDocumentPair` | app/services/document_grouping.py:194-270 | The pair score is one for identical bytes and otherwise the largest of the weighted score, the supported-topic score and the digest floor, capped at one. |
| `Similarity.TextSimilarityLaws` | app/services/document_grouping.py:114-167 | Text similarity lies in [0, 1] and is symmetric when the sequence matcher is. |
| `Similarity.JaccardLaws` | app/services/document_grouping.py:158-191 | The shared-members ratio lies in [0, 1], is symmetric, and is one exactly for equal sets. |
| `Similarity.PairScoreLaws` | app/services/document_grouping.py:194-270 | Every pair score lies in [0, 1] and is symmetric when the sequence matcher is. |
| `Similarity.PairScoreExactly` | app/services/document_grouping.py:194-270 | The pair score is 0.55 of the names, 0.35 of the contents and 0.10 of the key fields unless a supported common topic or an equal digest lifts it, each to its stated value. |
| `Similarity.TextSimilarityBounds` | app/services/document_grouping.py:114-167 | Texts that share no three characters in a row score 0.45 of the matcher's ratio, texts with the same ones 0.55 more; a short text is compared as it is and an empty one is like no other. |
| `Similarity.KeyScoreExactly` | app/services/document_grouping.py:170-191 | Key fields are compared by the share of pairs that both documents have. |
| `Similarity.SupportedTopicLinks` | app/services/document_grouping.py:249-268 | A supported shared topic, an equal digest or identical bytes reach the default threshold whatever else the files hold. |
| `Similarity.NameAloneDoesNotLink` | app/services/document_grouping.py:202-206 | However alike two names are, they never reach the default threshold without agreement of contents or key fields. |
| `Similarity.ConflictingYearsNeedEvidence` | app/services/document_grouping.py:218-232 | With conflicting years only identical bytes, an equal digest or the weighted evidence without the topic can link. |
| `Similarity.IdenticalFilesShareGroup` | app/services/document_grouping.py:234-235 | Byte-identical files share a group at every threshold. |
| `Similarity.GroupingIgnoresFileOrder` | app/services/document_grouping.py:273-402 | With a symmetric matcher the groups do not depend on the order of the files. |
| `Similarity.RemoveVersionMarks` | app/services/document_grouping.py:56-65 | The loop over version marks ends at a name that no pattern changes, and leaves a name alone exactly when no pattern matched it. |
| `BusinessEvidence.ValidateAnalyses` | app/services/business_evidence.py:70-121 | Findings are accepted exactly when each repeats the status of its type and the file and time of the snippets it cites, and no two have the same type, file and citations. |
| `BusinessEvidence.AcceptedRecordsAreDistinct` | app/services/business_evidence.py:124-174 | Accepted findings become records with distinct identifiers. |
| `BusinessEvidence.ApplyEvidenceScoring` | app/services/business_evidence.py:198-275 | Scoring has a closed form: an excluded file scores zero, any other its start plus the sum of its boosts, capped at one. |
| `BusinessEvidence.EvidenceScoresIgnoreOrder` | app/services/business_evidence.py:231-259 | The scores do not depend on the order of the records. |
| `BusinessEvidence.EvidenceScoresProper` | app/services/business_evidence.py:231-259 | Scores stay in [0, 1]. |
| `BusinessEvidence.ConfirmedApprovalAddsNothing` | app/services/business_evidence.py:235-246 | An approval whose citation a confirmed delivery already carries changes no score. |
| `BusinessEvidence.CollectConfirmed` | app/services/business_evidence.py:223-229 | Exactly the citations of deliveries a customer confirmed are counted, by file. |
| `BusinessEvidence.GroupHasReview` | app/services/business_evidence.py:337-365 | The group needs review exactly when it has rejecting or revising evidence or one file with both favourable and unfavourable evidence. |
| `BusinessEvidence.EvidenceForcesReview` | app/services/business_evidence.py:278-334 | Review is forced exactly by such evidence or when every candidate is excluded. |
| `BusinessEvidence.ExclusionAgainstSupportIsReviewed` | app/services/business_evidence.py:304-316 | Excluding a file that also has favourable evidence always forces a review. |
| `RecommendationOutcomes.RuleOfEachKind` | app/services/business_evidence.py:32-52 | The stored rule and weight of each kind of finding. |
| `RecommendationOutcomes.FindingsAcceptedExactly` | app/services/business_evidence.py:70-121 | Findings are accepted exactly when each states the status of its kind, repeats the target and time of the snippets it cites, and no two are the same. |
| `RecommendationOutcomes.SilencedIsNeverRecommended` | app/services/business_evidence.py:177-275 | A file with a record whose stored rule excludes it has a final score of zero, is on no shortlist and is never recommended, by the rules or after fusion, whichever stages raised. |
| `RecommendationOutcomes.EvidenceOnlySilencesByRule` | app/services/business_evidence.py:198-275 | Without such a record evidence never lowers a file's score. |
| `RecommendationOutcomes.OneMoreRecord` | app/services/business_evidence.py:233-257 | One more record changes at most its target: to zero if its rule excludes, by its weight times its confidence, rounded and capped, if it boosts and no confirmed delivery of the file cites the same. |
| `RecommendationOutcomes.ReviewExactly` | app/services/business_evidence.py:278-366 | Evidence sends a group to a human exactly for a record that rejects or asks for a revision, for records for and against one file, or when no candidate is left. |
| `Recommendation.ScoreCandidates` | app/services/recommendation.py:35-115 | Base scores of the non-duplicate members of the group, also when one is listed twice; the call raises exactly for an unknown member or a foreign chain. |
| `Recommendation.NonLeafIsBounded` | app/services/recommendation.py:79-115 | Among several candidates a file that is not a leaf of its chain scores at most 0.7, however new and well named. |
| `Recommendation.ApplyDeliveries` | app/services/recommendation.py:220-257 | Deliveries add their boosts to their files, capped at one; the call raises exactly when a candidate's delivery names another group. |
| `Recommendation.ApplyPdfSources` | app/services/recommendation.py:260-299 | The exports of the group are applied in order; the call raises exactly when one names a source that is no candidate. |
| `Recommendation.SourceScoreClosedForm` | app/services/recommendation.py:281-289 | A file that is only ever a source gains the sum of its boosts, capped at one. |
| `Recommendation.ExportScoreClosedForm` | app/services/recommendation.py:290-292 | A file that is only ever an export loses the sum of its penalties, down to zero at most. |
| `Recommendation.SelectRecommended` | app/services/recommendation.py:335-384 | The eligible candidate first by score, modification time, name and identifier; none exactly when all are excluded. |
| `Recommendation.CalculateConfidence` | app/services/recommendation.py:443-516 | Confidence from winning score and lead over the second entry, and review exactly for a branch, an incomplete chain, a near tie or too little confidence. |
| `Recommendation.PenaltiesAreExact` | app/services/recommendation.py:487-496 | An incomplete chain costs exactly 0.15 of confidence and a branch exactly 0.25, down to zero at most. |
| `Recommendation.MarginIsLead` | app/services/recommendation.py:480-486 | For a winner that no one outscores the margin is its lead over the closest rival. |
| `RecommendationOutcomes.BaseScoreWitness` | app/services/recommendation.py:76-115 | The base scores of three worked candidates and of a single one. |
| `RecommendationOutcomes.OneMoreDelivery` | app/services/recommendation.py:242-257 | One more delivery raises its file by 0.18 or 0.10 of its confidence, rounded and capped. |
| `RecommendationOutcomes.OneMoreExport` | app/services/recommendation.py:279-299 | One more export of the group raises its source by 0.10 and lowers the PDF by 0.06 of its confidence. |
| `RecommendationOutcomes.ChosenIsFirst` | app/services/recommendation.py:373-384 | No eligible candidate is ahead of the chosen one by score, modification time, name and identifier. |
| `RecommendationOutcomes.ConfidenceFormula` | app/services/recommendation.py:478-496 | For a winner no one outscores confidence is, to four places, 0.65 of its score and 0.35 of its lead over the closest rival, less 0.15 and 0.25 for an incomplete chain and a branch. |
| `RecommendationPipeline.Recommend` | app/nodes/recommendation.py:131-433 | The rule nodes in graph order on any scored decision: a node that raises reports its stage and leaves the decision of the node before it, so there is always a decision, and the stages reported are exactly those with a foreign delivery, an unknown source, a bad threshold or a stray chain. |
| `RecommendationOutcomes.StagesRaiseExactly` | app/nodes/recommendation.py:131-433 | Each reported stage has its own cause - a foreign delivery, an unknown source, a bad threshold, a stray chain - and is reported once, in graph order. |
| `RecommendationPipeline.DecisionPassesValidationExactly` | app/nodes/recommendation.py:478-574 | Whatever raised, the decision recommends no excluded file, misses none that is eligible and is consistent in all else the validation node checks; that node reports it exactly when the chain strays from a group that has files. |
| `RecommendationPipeline.DecisionIgnoresEvidenceOrder` | app/nodes/recommendation.py:197-391 | Whatever raised, the order in which business evidence was recorded changes no part of the decision and no reported stage. |
| `RecommendationPipeline.DeliveryCountsExactly` | app/nodes/recommendation.py:131-161 | A delivery raises the score of its file if and only if no delivery of a candidate names another group. |
| `RecommendationPipeline.ForeignDeliveryLosesApproval` | app/services/business_evidence.py:229-251 | Once a foreign delivery has discarded the delivery boosts, an approval that a confirmed delivery cites counts neither through the delivery nor by itself. |
| `RecommendationPipeline.LostApprovalWitness` | app/services/business_evidence.py:229-251 | A delivery of one file that names another group costs a different file the 0.18 of its own confirmed delivery. |
| `RecommendationPipeline.AcceptedDespiteFaultsWitness` | app/nodes/recommendation.py:131-194 | A file is accepted automatically although the delivery and the PDF stage both raised. |
| `RecommendationPipeline.ConfidenceMeansLead` | app/services/recommendation.py:443-516 | On a complete chain without branches the confidence rules say exactly that the file leads every rival by 0.08 and with enough confidence against each. |
| `RecommendationPipeline.AutomaticExactlyWhenConvincing` | app/services/recommendation.py:507-514 | Whatever raised, a decision stands without review if and only if the threshold is valid, some non-excluded file leads every rival clearly, the chain is complete and unbranched, and no difference or evidence forces a review; that file is then the recommendation. |
| `RecommendationOutcomes.DoubtsAreReviewed` | app/services/recommendation.py:507-546 | A decision without review has a complete unbranched chain, a valid threshold that its confidence reaches, a lead of 0.08 over every candidate, and no high-risk or conflicting difference. |
| `RecommendationPipeline.NonLeafNeedsReview` | app/services/recommendation.py:44-48 | Without delivery, PDF or business evidence a file that is not a leaf is never recommended without review at a threshold above 0.805. |
| `RecommendationPipeline.MarkForReview` | app/nodes/recommendation.py:436-475 | Exactly the decisions that need review are listed, compelling evidence first, then relation conflicts, then risk, then identifier. |
| `RecommendationOutcomes.ReviewOrder` | app/nodes/recommendation.py:446-463 | Of two listed groups the earlier has the more compelling evidence, then the relation conflict, then the higher risk, then the smaller identifier. |
| `RecommendationPipeline.HighestRiskIsHighest` | app/services/semantic_change_analysis.py:344-367 | The reported priority is the highest of the group's differences. |
| `RecommendationJudge.BuildShortlist` | app/services/recommendation_judge.py:221-245 | The shortlist holds the best eligible candidates in rank order, at most eight, always with the recommended one. |
| `RecommendationJudge.ShortlistUnique` | app/services/recommendation_judge.py:221-245 | Those properties determine the shortlist. |
| `RecommendationOutcomes.ShortlistMeans` | app/services/recommendation_judge.py:221-245 | At most eight eligible candidates by falling score, with the recommended one among them and no better one left out for any other. |
| `RecommendationJudge.FuseJudgment` | app/services/recommendation_judge.py:334-433 | Fusion of one decision with an opinion, with its audit record. |
| `RecommendationJudge.FuseJudgments` | app/services/recommendation_judge.py:436-459 | A batch keeps the place of every decision, leaves groups without an opinion alone and records exactly the others, in order. |
| `RecommendationJudge.FusionNeverGrantsAcceptance` | app/services/recommendation_judge.py:334-413 | The fused decision stands without review if and only if the decision did and the Judge abstained or agreed; it is then unchanged. |
| `RecommendationJudge.FusionBoundsScores` | app/services/recommendation_judge.py:369-400 | At most the Judge's candidate changes its score, upwards by at most 0.04 and not above one. |
| `RecommendationJudge.RecordExplainsDecision` | app/services/recommendation_judge.py:351-432 | The audit record notes a conflict exactly when fusion sends the case to review and an adjustment exactly when the opinion counts as a priority signal; otherwise the decision stands as it was. |
| `RecommendationOutcomes.FusionChangesExactly` | app/services/recommendation_judge.py:351-413 | Fusion raises the Judge's candidate, by 0.04 of its confidence, exactly for a confident opinion in an unsettled case; a dissent then moves the recommendation to the best raised score and always asks for a human; nothing else changes. |
| `RecommendationOutcomes.ResolutionExactly` | app/services/recommendation_judge.py:351-432 | Each resolution stands for exactly one case of abstention, agreement, dissent and confidence. |
| `RecommendationOutcomes.FusionKeepsConsistency` | app/services/recommendation_judge.py:334-459 | A fused decision satisfies every check of the validation node that the rules' decision satisfies. |
| `RecommendationJudge.FusionKeepsExclusions` | app/services/recommendation_judge.py:392-407 | A re-ranking never promotes a file that scored zero because it was excluded. |
| `RecommendationJudge.ExcludedIsNeverRecommended` | app/services/recommendation_judge.py:221-433 | From scoring through selection, shortlist, opinion check and fusion, and whichever stages raised, an excluded file is never recommended. |
| `RecommendationJudge.AutomaticEndToEnd` | app/services/recommendation_judge.py:334-459 | Whichever stages raised, the whole chain accepts automatically exactly when the threshold is valid, a file is convincing and the Judge, if heard, abstains or names it; nothing is then changed. |
| `RecommendationJudge.ThirdFileExactly` | app/services/recommendation_judge.py:392-407 | Selection breaks ties by modification time, fusion by identifier: exactly when fusion recommends a file that neither the rules nor the Judge chose. |
| `RecommendationJudge.ThirdFileWitness` | app/services/recommendation_judge.py:400-401 | A concrete case in which it does. |
| `RecommendationJudge.FlaggedIsReviewed` | app/services/recommendation_judge.py:175-204 | A group with any risk flag is always reviewed. |
| `RecommendationOutcomes.FlagsAreExact` | app/services/recommendation_judge.py:175-204 | Apart from the one that is never raised, each flag is shown exactly for what it names. |
| `RecommendationJudge.EvidenceFlagIsNeverRaised` | app/services/recommendation_judge.py:200-203 | The flag for evidence that demands a review compares with an action text that no record can carry, so it is never raised. |
| `RecommendationJudge.EvidenceFlagWitness` | app/services/recommendation_judge.py:200-203 | A revision request forces a review and still raises no flag. |
| `RecordMerge.MergeById` | app/state/reducers.py:8-43 | The keyed merge leaves distinct keys and, for a list that had them, replaces known records in place and appends new ones. |
| `RecordMerge.MergeKnown` | app/state/reducers.py:8-43 | Merging updates of known records replaces exactly the records they name. |
| `PdfMatching.CandidateScoreLaws` | app/services/evidence_matching.py:93-153 | A candidate's score lies in [0, 1]; an equal digest alone is enough to match, and without agreeing contents no other signal is. |
| `PdfMatching.CandidateScoreIsWeighted` | app/services/evidence_matching.py:127-153 | The score is, to four places, 0.65 of the contents, 0.20 of the key fields, 0.10 for the topic and 0.05 for the times, and at least 0.98 for an equal digest. |
| `PdfMatching.MatchPdfToSourceVersion` | app/services/evidence_matching.py:156-245 | The match raises exactly for a bad threshold or a job that names unknown, repeated or unsuitable files; otherwise its export is a function of the set of candidates. |
| `PdfMatching.SourceIsNamedIffItStandsOut` | app/services/evidence_matching.py:214-235 | A source is named if and only if it reaches the threshold and leads every other candidate by 0.05. |
| `PdfMatching.ExportIsInRange` | app/services/evidence_matching.py:216-245 | Score and confidence lie in [0, 1], a named source is a candidate at or above the threshold, and a near tie has reduced confidence. |
| `PdfMatching.ExportExactly` | app/services/evidence_matching.py:197-245 | The export reports the best score; its confidence is that below the threshold, 0.6 of it without a lead of 0.05, and otherwise 0.8 of it plus the lead up to 0.2; a source is named exactly in the last case. |
| `GroupIndex.IndexGroups` | app/nodes/evidence.py:453-463 | The groups are accepted exactly when every listed file is known and none is listed twice, and the index then maps each file to its only group. |
| `EvidenceGraph.CollectPdfCandidates` | app/nodes/evidence.py:27-48 | Exactly the parsed original PDFs with normalised content, in order. |
| `EvidenceGraph.CreatePdfMatchJobs` | app/nodes/evidence.py:51-121 | One pending job per PDF that exactly one group lists; one error, in order, for every listing of an unknown file and for every other PDF with the number of its groups; all of it is lost exactly when such a PDF's own group lists an unknown file, because the node then raises. |
| `EvidenceGraph.UnknownIs` | app/nodes/evidence.py:70-83 | The first kind of errors names exactly the unknown files of each group. |
| `EvidenceGraph.EveryPdfIsAccountedFor` | app/nodes/evidence.py:87-120 | Every PDF gets a job or an error that states how many groups list it, never both and never neither. |
| `EvidenceGraph.ListGroups` | app/nodes/evidence.py:70-84 | The index of groups by file holds, for every known file, the groups that list it, once per listing. |
| `EvidenceGraph.JobCandidatesAre` | app/nodes/evidence.py:104-111 | The candidates of a job are exactly the parsed, editable, documented originals of its group. |
| `EvidenceGraph.LookupFailureWitness` | app/nodes/evidence.py:99-106 | One group with a PDF and a missing file is enough to lose the report of the missing file. |
| `EvidenceGraph.FanOut` | app/nodes/evidence.py:124-142 | Exactly the pending jobs are marked running. |
| `EvidenceGraph.RunWorker` | app/nodes/evidence.py:145-182 | A worker completes its job with one export or fails it with one error and no export. |
| `EvidenceGraph.WorkerSettlesExactly` | app/nodes/evidence.py:157-182 | A job completes exactly for a threshold in [0, 1] and distinct known references of the right formats, and keeps its identity. |
| `EvidenceGraph.RunAllWorkers` | app/graphs/routers.py:546-573 | The state after workers have reported in any order to any state, merged by identifier. |
| `EvidenceGraph.AnyCompletionOrderSettles` | app/nodes/evidence.py:185-224 | Whatever the order in which workers report, every job settles in its place, the exports are exactly those of the completed jobs, the errors exactly those of the others, and the join reports nothing. |
| `EvidenceGraph.ValidatePdfEvidence` | app/nodes/evidence.py:437-497 | The PDF checks of the validation node, silent exactly when groups, threshold and every export are consistent. |
| `EvidenceGraph.FaultyExportIsReported` | app/nodes/evidence.py:460-497 | An export with an unknown PDF, a wrong group, a foreign or unsuitable source, too weak a match or an impossible value is reported. |
| `EvidenceGraph.FaultyGroupIsReported` | app/nodes/evidence.py:437-459 | So are groups that share a file or list an unknown one, and a threshold outside [0, 1]. |
| `EvidenceGraph.PdfEvidenceIsValid` | app/nodes/evidence.py:51-522 | With disjoint groups of known files and a threshold in [0, 1] no worker fails or reports an error, every job has its export and validation reports nothing. |
| `DeliveryMatching.SelectUniqueCanonical` | app/services/evidence_matching.py:248-264 | Copies are folded together and a file is returned exactly when one known file is left. |
| `DeliveryMatching.MatchEntry` | app/services/evidence_matching.py:319-356 | The match is made by the strongest signal that pinpoints a file; without one the entry stays unmatched. |
| `DeliveryMatching.MatchExactly` | app/services/evidence_matching.py:319-375 | An equal hash decides with confidence 1, only where it leaves the file open an equal text with 0.95, then an equal name with 0.85, then an equal stem with 0.70. |
| `DeliveryMatching.MatchIsUnique` | app/services/evidence_matching.py:319-356 | That leaves no choice, so the order of the files cannot matter. |
| `DeliveryMatching.MatchDeliveries` | app/services/evidence_matching.py:378-449 | One delivery per entry in order; the batch raises exactly for repeated identifiers, disorderly groups or a match without a group. |
| `DeliveryMatching.GroupedNeverRaises` | app/services/evidence_matching.py:357-359 | When every file is grouped, matching cannot raise. |
| `DeliveryMatching.DeliveriesPassChecks` | app/nodes/evidence.py:396-522 | The deliveries of a batch match the citations of their entries one to one and pass every check of the validation node. |
| `ErrorRecovery.PickError` | app/nodes/error_recovery.py:47-80 | The current error, then the queue from its end, then the latest unresolved error. |
| `ErrorRecovery.PickFindsOpenError` | app/nodes/error_recovery.py:47-80 | What is picked is open, and something is picked whenever an error is unresolved. |
| `RecoveryOutcomes.PickIsLatest` | app/nodes/error_recovery.py:48-76 | An open current error is taken; otherwise the last open one of the queue; otherwise the latest record that needs attention; nothing exactly when there is none. |
| `ErrorRecovery.BackoffLaws` | app/services/recovery_policy.py:442-473 | Delays never shrink from one retry to the next and stay between the initial and the largest backoff. |
| `RecoveryOutcomes.DelaysGrowByMultiplier` | app/services/recovery_policy.py:442-473 | The first delay is the rule's and each further one the last times the multiplier, up to the maximum. |
| `ErrorRecovery.ApplyRecoveryFallback` | app/nodes/error_recovery.py:349-541 | The fallback node closes its cohort, notes its degradations and takes it off the queue, raising only when there is no fallback. |
| `ErrorRecoveryProperties.RecoverError` | app/graphs/error_recovery.py:28-106 | The nodes in the order in which the routers choose them. |
| `ErrorRecoveryProperties.RunRaisesExactlyWhen` | app/nodes/error_recovery.py:35-796 | A run raises exactly when there is nothing to recover, or a human was asked and gave an answer that is not admitted. |
| `ErrorRecoveryProperties.RunEndsResumableOrAborted` | app/nodes/error_recovery.py:777-796 | Every other run ends with a resumable action or an abort, never waiting for a human, with the request cleared and the run status to match. |
| `ErrorRecoveryProperties.RunDealsWithItsError` | app/nodes/error_recovery.py:247-774 | Whatever path a run takes, the status of its error and of the tasks concerned is the one its reported action stands for, and other tasks are untouched. |
| `RecoveryOutcomes.RunFollowsPolicy` | app/services/recovery_policy.py:476-513 | Without a leftover choice a run retries while the category's rule allows, else applies its fallback, else does what the human answers, else gives up; a disabled policy gives up at once. |
| `RecoveryOutcomes.SubjectFollowsRule` | app/services/recovery_policy.py:516-560 | The policy sees the error with the limits and fallback of its category's rule, and with a task even where it had none. |
| `RecoveryOutcomes.RunWithoutPolicy` | app/nodes/error_recovery.py:80-211 | An error that maps to no node is aborted and one whose work can be reused is recovered, whatever the policy says. |
| `RecoveryOutcomes.AdmittedExactly` | app/nodes/error_recovery.py:556-600 | A human may retry what is retryable, name a path for filesystem and validation errors, skip what has a file, and always abort. |
| `RecoveryOutcomes.OthersAfterRun` | app/nodes/error_recovery.py:349-541 | A fallback closes exactly the open records of the same task that wait for the same fallback; every other run leaves all other records alone. |
| `RecoveryOutcomes.QueueAfterRun` | app/nodes/error_recovery.py:247-774 | A retry keeps its error queued, an abort takes it off, a fallback takes off it and its companions, and nothing else leaves or comes. |
| `RecoveryOutcomes.QueueKeepsOrder` | app/nodes/error_recovery.py:247-774 | What stays in the queue keeps its order, with a new error behind it. |
| `ErrorRecoveryProperties.RetryStaysWithinLimit` | app/nodes/error_recovery.py:247-346 | A retry counts one more within the record's limit, an automatic one also within the category's limit, and rewrites no other record. |
| `ErrorRecoveryProperties.FallbackRunClosesCohort` | app/nodes/error_recovery.py:408-500 | After a fallback no open error of the same task waits for the same fallback; exactly that cohort is closed, noted and taken off the queue, and no other record changes. |
| `ErrorRecoveryProperties.RunKeepsRecords` | app/nodes/error_recovery.py:35-796 | No run loses a record or a counted retry. |
| `ErrorRecoveryProperties.AutomaticRetriesAreBounded` | app/services/recovery_policy.py:498-507 | Over any sequence of runs an error is retried automatically at most as often as its category still allows. |
| `ErrorRecoveryProperties.StaleSkipReplacesFallback` | app/nodes/error_recovery.py:373-378 | The human choice of an earlier recovery is not cleared: the policy's fallback is applied exactly when that choice was not to skip a file, or skipping is the fallback. |
| `ErrorRecoveryProperties.StaleRetryDropsBackoff` | app/nodes/error_recovery.py:272-293 | Likewise the policy's delay is scheduled exactly when that choice was not to retry, or the delay is zero. |
| `ErrorRecoveryProperties.StaleSkipWitness` | app/nodes/error_recovery.py:373-378 | A concrete error that is skipped as a file because an earlier one was. |
| `ErrorRecoveryProperties.StaleRetryWitness` | app/nodes/error_recovery.py:272-293 | A concrete first retry that is due after half a second and is scheduled at once because an earlier error was retried by hand. |
| `TextNormalizer.NormalizeText` | app/services/content_normalizer.py:67-104 | NFKC, line ends, control characters, cells, tabs, blank lines and the final strip, as loops over lines and cells. |
| `TextNormalizer.CleanIsTidy` | app/services/content_normalizer.py:91-104 | Whatever goes in, every cell is collapsed and stripped, no line ends in a tab, no two blank lines are adjacent and neither end is white space. |
| `TextLayout.LayoutSurvives` | app/services/content_normalizer.py:67-104 | Every visible character of the NFKC form survives in order with what lies between it and the one before: nothing, space, the same number of cell borders, or a line break with or without a blank line and the same number of borders after it. |
| `TextLayout.LineCells` | app/services/content_normalizer.py:97-98 | The cells of a cleaned line are the stripped and collapsed raw cells in order, up to empty cells at the end. |
| `TextLayout.TableRowWitness` | app/services/content_normalizer.py:90-98 | The row "a, tab, b" keeps its two columns. |
| `TextNormalizer.TidyTextIsKept` | app/services/content_normalizer.py:91-104 | A text that is already tidy passes through the cleaning unchanged. |
| `TextNormalizer.IdempotentExactlyWhenNfkcKeeps` | app/services/content_normalizer.py:67-104 | Normalising twice changes nothing exactly when NFKC leaves the first result alone. |
| `NormalizerIdempotence.CleanKeepsStability` | app/services/content_normalizer.py:85-104 | The cleaned text is in NFKC form if and only if the text is once its removable control characters are deleted: no other step makes or breaks the form. |
| `NormalizerIdempotence.IdempotentExactlyWhenDeletionKeepsForm` | app/services/content_normalizer.py:67-104 | Normalising twice changes nothing if and only if deleting the control characters from the NFKC form of the input leaves it in NFKC form. |
| `NormalizerIdempotence.IdempotentWithoutControls` | app/services/content_normalizer.py:85-91 | In particular the normaliser is idempotent on every text without a control character that it removes. |
| `TextNormalizer.IdempotentOnAscii` | app/services/content_normalizer.py:67-104 | On ASCII the normaliser is idempotent. |
| `TextNormalizer.NotIdempotentWitness` | app/services/content_normalizer.py:85-91 | A control character between a letter and its accent makes the second pass differ from the first. |
| `TextNormalizer.SplitJoin` | app/services/content_normalizer.py:94-104 | Splitting takes apart what joining put together, for lines and for cells. |
| `ContextCompaction.BuildPlan` | app/services/context_compaction.py:193-259 | What is reclaimed and from where; a plan made at inventory time, or one that is not to be carried out, names no document. |
| `ContextCompaction.ApplyCompaction` | app/services/context_compaction.py:262-318 | Target documents are shortened and their details listed in order; the call raises exactly for a plan not to be carried out or a negative preview length. |
| `ContextCompaction.CompactionRoundTrip` | app/services/context_compaction.py:286-318 | The compacted documents and the removed details together are the original documents. |
| `ContextCompaction.CompactionTouchesThreeFields` | app/services/context_compaction.py:291-309 | Only three fields of target documents change, and compacting again changes no document. |
| `ContextCompaction.PlanNamesWhatItReclaims` | app/services/context_compaction.py:232-259 | A plan names a document exactly when its details carry weight, and is carried out only if it reclaims something. |
| `ContextCompaction.PlanActsExactly` | app/services/context_compaction.py:215-259 | A plan acts exactly when compaction is enabled, the context is above the threshold, and the prompt's content or, after the evidence stage, some document's details hold tokens. |
| `ContextCompaction.ReclaimableAdds` | app/services/context_compaction.py:222-244 | Each document adds the tokens of its details, and after the inventory stage none does. |
| `ContextCompaction.TargetsKeepTheirBeginning` | app/services/context_compaction.py:291-309 | A target keeps the beginning of its preview and the marker in place of its structure, and no key fields. |
| `ContextCompaction.RunCompaction` | app/nodes/context_compact.py:65-132 | One pass of the subgraph: plan, compact, number and append; at inventory time no document changes. |
| `ContextCompaction.SummariesStayNumbered` | app/nodes/context_compact.py:103-108 | Any sequence of compactions appends one summary each, numbered without gap or repetition. |
| `ContextCompaction.SummaryIsNext` | app/services/context_compaction.py:321-414 | A compaction appends the summary with the next number and the tokens of the context it leaves. |
| `ContextCompaction.AllCompactionsRoundTrip` | app/services/context_compaction.py:262-318 | However often and with whatever settings documents were compacted, the payloads rebuild the originals. |
| `ContextCompaction.FactsSurvive` | app/services/context_compaction.py:291-309 | Identifiers, references and digests of every document survive any sequence of compactions in place. |
| `ContextCompaction.AppendIsIdempotent` | app/services/context_compaction.py:393-414 | Appending the same summary twice is appending it once. |
| `Inventory.MarkExactDuplicates` | app/tools/file_scanner.py:186-226 | Every set of identical files keeps its oldest member and the others point to it; the call raises exactly for a repeated identifier or a missing digest. |
| `Inventory.EarliestIsKept` | app/tools/file_scanner.py:212-226 | Of identical files the earliest, then the one with the smallest path, stays as it is; every other becomes its duplicate and changes in nothing else. |
| `Inventory.OneFilePerContentIsQueued` | app/nodes/inventory.py:130-143 | After marking, exactly one file of every content is queued, the oldest. |
| `Inventory.BuildParseQueue` | app/nodes/inventory.py:130-143 | The pending originals in order. |
| `Inventory.PlaceInQueue` | app/nodes/inventory.py:130-143 | The place of a pending original in the queue is the number of pending originals before it. |
| `Inventory.ParseNext` | app/nodes/inventory.py:146-307 | One round of the loop gives its file its final status, adds at most its document, reports it exactly when it did not end parsed, and touches nothing else. |
| `Inventory.ParseAll` | app/graphs/inventory.py:47-85 | The loop terminates, takes every queued file exactly once and in order, reports exactly those that did not end parsed, and touches no other file. |
| `Inventory.EveryQueuedFileEnds` | app/nodes/inventory.py:180-307 | Every queued file ends parsed, failed or unsupported, and every other file is as before. |
| `Inventory.QueuedFileEndsAsRead` | app/nodes/inventory.py:165-307 | A queued file of a known format ends parsed with the document read from it, or failed when reading raised; of another format it ends unsupported. |
| `Inventory.DocumentsComeFromReading` | app/nodes/inventory.py:248-273 | Every document added was read from a queued file of a known format, and none is lost. |
| `Inventory.ValidateInventory` | app/nodes/inventory.py:310-344 | Silent exactly when no file has two documents, every parsed file has one and every document names a known file. |
| `Inventory.FreshInventoryIsConsistent` | app/nodes/inventory.py:310-344 | Without leftovers validation reports nothing and exactly the parsed files have a document. |
| `Inventory.InventoryConsistentExactlyWhen` | app/nodes/inventory.py:310-344 | With documents left by an earlier inventory validation reports nothing exactly when they agree with what is found now. |
| `Inventory.ChangedFileWitness` | app/services/content_normalizer.py:202-207 | A file whose text changed in between ends up with two documents and is reported. |
| `LlmConfig.NormalizeProfiles` | app/llm/model_profiles.py:477-514 | The list is accepted exactly when it has one to thirty-two items, each an accepted profile with a new identifier; the first failure is the failure of the list. |
| `ConfigOutcomes.ProfileListAcceptedExactly` | app/llm/model_profiles.py:477-514 | A list is accepted exactly when it has one to thirty-two items, each an accepted profile, with different identifiers; order and contents are kept. |
| `LlmConfig.NormalizeRoutes` | app/llm/model_profiles.py:517-561 | Routes are accepted exactly when each names a task of the protocol and a known profile; later entries for a task replace earlier ones. |
| `ConfigOutcomes.RoutesAcceptedExactly` | app/llm/model_profiles.py:517-561 | Routes are accepted exactly when every entry routes a protocol task to a known profile, and a task is sent where its last entry says. |
| `LlmConfig.AcceptedProfileIsProper` | app/llm/model_profiles.py:343-458 | An accepted profile has a clean identifier, a supported provider with the environment names it demands, and numbers within their limits. |
| `ConfigOutcomes.AcceptedProfileSaysWhatWasConfigured` | app/llm/model_profiles.py:343-458 | Every field of an accepted profile is the configured one, trimmed, folded and with aliases resolved, or the documented default, within the documented limits and the provider's demands. |
| `ConfigOutcomes.SpellingDoesNotMatter` | app/llm/model_profiles.py:343-458 | However its texts are spelled, a profile that says the same as an accepted one is accepted and is the same. |
| `ConfigOutcomes.DefaultProfile` | app/llm/model_profiles.py:22-46 | A profile that only has an identifier is the offline mock with temperature 0, 800 tokens and 30 seconds. |
| `LlmConfig.ProfileIsFixed` | app/llm/model_profiles.py:343-458 | Written out and read back, a profile is the same. |
| `LlmConfig.NormalizationIsFixpoint` | app/llm/config.py:200-270 | Whatever form a configuration had, its normalised state is accepted again and normalises to itself. |
| `LlmConfig.LegacyMeansOneProfile` | app/llm/config.py:232-241 | The single-model form means the list with its one profile named default. |
| `ConfigOutcomes.DefaultExactly` | app/llm/config.py:133-168 | The default is the configured profile; without one the profile named "default" if there is one, and otherwise the first. |
| `ConfigOutcomes.RepeatedFieldsMustAgree` | app/llm/config.py:171-197 | Model fields next to a list of profiles are accepted exactly when each repeats the default profile's value. |
| `ConfigOutcomes.AcceptedConfigSaysWhatWasConfigured` | app/llm/config.py:200-270 | An accepted configuration has its own switches, profiles and default, with fallback on and the model off unless configured. |
| `LlmConfig.ResolutionSucceeds` | app/llm/model_profiles.py:578-627 | Every task of the protocol resolves to the profile it is routed to or else the default, and an explicit identifier resolves exactly when a profile has it. |
| `ConfigOutcomes.ResolutionPrecedence` | app/llm/model_profiles.py:578-627 | An explicit identifier decides whatever the task, and a task outside the protocol resolves to nothing. |
| `LlmConfig.AliasesAreNotSupported` | app/llm/model_profiles.py:48-54 | No alias is itself a supported provider name. |
| `LlmConfig.StandardIsLawful` | app/llm/model_profiles.py:48-133 | With the repository's provider, method and task tables, the laws assumed of trimming and case folding are only idempotence and leaving clean names alone. |

## Left out

- JobQueueService.JobQueue.Enqueue: does not model the `governance_runs` row nor the clean-up of identifiers (trimming, emptiness, length).
- JobQueueService.JobQueue.Claim: does not model the run row; each transaction is one atomic step, so the lost race of the conditional update cannot occur.
- JobQueueService.JobQueue.MarkRunning: does not model the run row.
- JobQueueService.JobQueue.Finish: does not model the run row, the report path and the error summary.
- JobQueueService.JobQueue.FailOrRequeue: does not model the run row and the error summary.
- JobQueueService.JobQueue.SubmitResume: does not model the run row; whether a value fits its interrupt is one truth value.
- JobQueueService.JobQueue.RequeueExpired: does not model the run rows of swept jobs.
- Run rows in general: the graph itself also writes them (`app/nodes/lifecycle.py`), so no agreement between run and job status is claimed while a job is running.
- SQLAlchemy, Alembic and database locking: each session block is one atomic step, and a raised error rolls it back.
- Threads, sleeping and logging of the worker: a heartbeat turn and the closing of a job are single steps that any other call may separate.
- Similarity.ScoreDocumentPair: the sequence matcher is an oracle with values in [0, 1], topics and years are given strings, signals are not modelled, and `calculate_text_similarity` has its default limits, on texts already truncated and case-folded.
- Similarity.RemoveVersionMarks: the patterns are arbitrary steps that shorten a name or leave it alone.
- DocumentGrouping.RenderGroup: gives the mean before it is rounded to four places, and no label or rendered signals.
- DocumentGrouping.GroupRelatedDocuments: texts, labels and signals enter only through the pair score and the order they impose on groups.
- DocumentGrouping.TwoFilesOrderMatters: two files only; `GroupingOrder.OrderInvisibleExactly` is the statement for any number.
- BusinessEvidence.ApplyEvidenceScoring: leaves out the reasons; halves are rounded up, where Python rounds the binary value to even.
- Recommendation.ApplyDeliveries: leaves out the reasons; halves are rounded up.
- Recommendation.ApplyPdfSources: leaves out the reasons; halves are rounded up; a file that is both a source and an export in the same group has no closed form, because the code caps after every step.
- Recommendation.CalculateConfidence: differences and thresholds are compared as exact decimals, where the code compares binary floats, so that it takes a lead of 0.88 over 0.80 for less than 0.08; leaves out the reasons and rounds halves up.
- Remembered preferences (`app/nodes/memory.py`): the scores that enter the recommendation rules are arbitrary scores in [0, 1].
- RecommendationPipeline.Recommend: starts from a scored decision; a group that cannot be scored has none. The explanation node changes reasons only.
- RecommendationJudge.FuseJudgment: leaves out the reasons and the text of the audit record, and rounds halves up.
- The artifact references, semantic summaries and version positions of the Judge's packet: the references it may cite are a given set.
- RecordMerge.MergeById: an update replaces the whole record, where the reducer merges field by field; the modelled nodes always write whole records.
- PdfMatching.MatchPdfToSourceVersion: leaves out signals and the checks of record identifiers, rounds halves up, and compares the lead with 0.05 as exact decimals, where the code compares binary floats.
- E-mail retrieval and the reading of the local log: the entries are given; the node that reports their failures is not part of this model.
- ErrorRecoveryProperties.RecoverError: recovery targets, reusable executions and directory checks of a replacement path are given; persistence and audit records are not modelled.
- ErrorRecovery.ApplyRecoveryFallback: assumes that every record of the cohort carries an execution identifier, as every node that creates errors provides; without one the audit step would raise.
- Whole runs of the top-level graph: only sequences of recovery runs are, because what happens in between depends on every other node.
- TextNormalizer.IdempotentExactlyWhenNfkcKeeps: its condition is on the first result; `NormalizerIdempotence.IdempotentExactlyWhenDeletionKeepsForm` has one on the input.
- NormalizerIdempotence.IdempotentExactlyWhenDeletionKeepsForm: NFKC and the Unicode tables are parameters, bound by the laws of `NormalizerIdempotence.Lawful`, which `NormalizerIdempotence.IdentityIsLawful` shows can be met.
- Key-field extraction and document parsers: their outcome is a digest or a failure.
- ContextCompaction.RunCompaction: the status fields, the artifact file and the database row of a summary are not part of this model; token counts are an oracle, so nothing is claimed about their decrease.
- LlmConfig.NormalizationIsFixpoint: numbers are exact reals, so infinities and not-a-number are outside the model, as are non-string keys.
- Acceptance of the Judge's packet by `app/agents/protocol.py`, report rendering, scheduling, the MCP server, the HTTP interface and the command line: thin layers around the modelled core.
