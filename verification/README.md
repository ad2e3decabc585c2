# CKodex KServe LLM operator: verification model

A Dafny model of the parts of the operator that keep state across calls, crashes and concurrent
callers. `dafny verify dfyconfig.toml` checks the whole project.

**The storage initializer.** A run checks the destination for a usable cache, recovers or refuses what
an earlier run left, stages in `.ckodex-staging` with a persisted phase, pulls, digests, writes the
verification record, and publishes by persisting the listing and renaming entry by entry. The
destination is a map from names to trees. `Transaction` gives a run as the sequence of filesystem effects
it performs; a crash keeps any prefix of it, a failing call keeps a prefix and then runs the deferred
cleanup. `History` lets any number of such runs for any URIs follow each other. `Shapes` and `Moves`
describe every destination that can arise, `Completeness`, `CacheHits` and `WholeCommits` say what a cache
hit is worth, `Recovery` says what can be taken up again, `Protocol` what each step keeps,
`RecordLinks` what a link at the record path does, `RunRules` when a run starts, hits, publishes or is
refused, in terms of its inputs; `Witness` shows that the assumptions can be met.
`Initializer` is the same run as a class that changes its volume call by call, proved to perform exactly
those effects.

`Tree` is the digest walk. `TreePaths` says which files it visits by following names through the tree,
and `DigestMeaning` when two trees have the same digest.

**The other components.** Each stands alone: `Chaos` (seeded target selection), `AccessPolicy` and
`AccessEvaluator` (tenant admission, its run safety and the evaluator's snapshot), `TokenBudget` (the
mutex-protected ledger), `KeyCache` (the TTL-bounded signing keys; key sets are those of section 5 of
RFC 7517), `Conformance` (the verdict lattice), `ApiObjects` and `Conversion` (v1alpha2 against v1),
`SecretRef` (the hand-written splitter), `ArtifactPolicy` and `RiskValence` (AIPACK).

**Where the code does less than its description.** Each is kept as the code has it, with the exact
condition proved:

- A hit on a Verified record does not recompute the digest. Because `.ckodex` sorts before most names, a
  crash early in an OCI commit leaves a destination that later runs accept without its payload.
- A crash right after the staging directory is created, or while the state file is truncated, leaves a
  destination that no later run takes up; so does a rename that fails half way, unless no hashed file was lost.
- The digest framing is ambiguous for contents with NUL bytes. Cache hits are still sound: the proofs of
  `CacheHits` need no assumption on contents.
- A selection of all pods keeps the order of the list it was given, so it is reproducible only as a set.
- The budget gate does not cap use: a report above the balance is dropped, so repeated requests stop passing
  only when their report divides the balance. A negative report adds to the balance, or wraps it below zero.
- The record is written through a link that the payload brings at its path, after the digest was taken.
- An emptied family allow-list allows every family, while an emptied type allow-list allows no type.
- Risk weights are only required to sum to 100; range and monotonicity hold exactly without negative ones.
- Conversions into a reused object keep stale experimental fields.

## Model

| member | source | states |
|---|---|---|
| `Tree.StreamInjective` | cmd/storage-initializer/transaction.go:177-193 | equal digest streams come from equal lists of (path, content), when no path or content holds a NUL |
| `Tree.StreamsCollideExactly` | cmd/storage-initializer/transaction.go:177-193 | for arbitrary contents, two file lists with NUL-free paths have the same stream if and only if they have the same list of NUL-terminated fields |
| `Tree.NulContentCollides` | cmd/storage-initializer/transaction.go:177-193 | for any two names and any contents, one link-free tree with a NUL inside a file and one with two files differ in their files and agree in their stream, so the side condition is needed |
| `Tree.FirstPathUnique` | cmd/storage-initializer/transaction.go:182-190 | whatever the contents hold, equal streams agree on the first path |
| `Tree.EntryPrefixed` | cmd/storage-initializer/transaction.go:156-193 | walking a subtree under a prefix hashes the same files as walking it at the root, each path prefixed; this is how a staged file betrays itself |
| `Tree.WalkInsert` | cmd/storage-initializer/transaction.go:156-193 | adding one entry to a directory splices exactly its own files into the ordered walk and changes nothing else |
| `TreePaths.FilesExactly` | cmd/storage-initializer/transaction.go:152-193 | for every tree, without naming the walk: a file is hashed if and only if some trail of names leads to it through directories none of which is the record directory, and its last name is not the state file; each such file is hashed once, under its joined trail, in listing order |
| `TreePaths.HashedExactly` | cmd/storage-initializer/transaction.go:156-193 | for every tree, a path and a content are hashed together if and only if some trail of names that joins to the path leads to a file with that content as above |
| `TreePaths.PathsDistinct` | cmd/storage-initializer/transaction.go:182-190 | in a tree whose names hold no separator no path is hashed twice |
| `TreePaths.CleanExactly` | cmd/storage-initializer/transaction.go:165-173 | the walk meets no link if and only if every trail to a link outside the record directory ends in the state file name |
| `DigestMeaning.DigestsAgreeExactly` | cmd/storage-initializer/transaction.go:152-199 | two link-free trees with NUL-free names and contents have the same digest, for a collision-free hash, if and only if the same trails lead to the same hashed contents in both |
| `Names.AscendingUnique` | cmd/storage-initializer/transaction.go:131-139 | a set of names has exactly one ascending listing, so the order of a directory read is determined by its entries |
| `Moves.RenameStep` | cmd/storage-initializer/transaction.go:141-149 | one iteration of the commit loop moves one entry with its tree unchanged and leaves every other entry on both sides as it was |
| `Protocol.CommitConserves` | cmd/storage-initializer/transaction.go:130-150 | after any number t of renames the published and the staged entries are disjoint, their union is exactly the pulled payload with its record, exactly t are published, nothing is overwritten |
| `Protocol.DigestInvariant` | cmd/storage-initializer/transaction.go:152-199 | four states have one digest, unless the payload links the record path: staging when assessed, staging with the record added, the destination after the last rename, the destination after cleanup; it is the digest in the record |
| `Protocol.RecoveryTouchesOnlyItsOwn` | cmd/storage-initializer/transaction.go:59-100 | for every destination: without a readable state of this subject in a known phase recovery changes nothing; otherwise it removes only listed names and staging, removes staging only when everything else was listed, succeeds if and only if the destination ends empty, and refuses a download beside other files with the destination unchanged |
| `Completeness.RecordUnseen` | cmd/storage-initializer/transaction.go:165-170 | the record directory contributes nothing to the walk and is not searched for links |
| `Completeness.VerifiedExactlyOci` | cmd/storage-initializer/main.go:200-254 | a record written by a successful assessment counts as Verified if and only if the URI has an OCI scheme |
| `Completeness.PublishedFiles` | cmd/storage-initializer/main.go:389-399 | adding the record to staging and leaving the state file behind changes no hashed file |
| `Completeness.StreamsTellApart` | cmd/storage-initializer/transaction.go:177-193 | for arbitrary contents, a list with files missing in front, or with files moved below the staging prefix, never has the stream of the whole list |
| `Completeness.HalfwayDigest` | cmd/storage-initializer/transaction.go:130-199 | a half-published destination that already shows the record has the stream of the whole payload if and only if its hashed files, staging included, are exactly those of the payload, if and only if the published part alone holds them all |
| `Completeness.ShapeExact` | cmd/storage-initializer/main.go:107-127 | on every reachable shape that shows a record: whose record it is, and its digest matches if and only if the whole destination holds exactly the files that run staged, if and only if it does so without its staging directory |
| `Shapes.SessionPrefix` | cmd/storage-initializer/main.go:129-174 | every prefix of the effects of a session from an empty destination leaves one of the four shapes: empty, only staging, part of the listing renamed, or part kept after cleanup |
| `Shapes.CleanupShape` | cmd/storage-initializer/transaction.go:52-56 | the deferred cleanup after any number of effects keeps exactly what was renamed and drops the rest |
| `History.HistoryMatches` | cmd/storage-initializer/main.go:107-176 | from an empty destination, after any sequence of runs for any URIs, each complete, crashed after any effect or failed at any call, the destination has one of the four shapes and its payload was staged by a run of that sequence |
| `CacheHits.RecordExact` | cmd/storage-initializer/main.go:107-127 | in every such history without skipped checks, the record on the destination was written by one particular run, and its digest matches if and only if the destination holds exactly the files that run staged, none of them in staging |
| `CacheHits.DigestHitIsComplete` | cmd/storage-initializer/main.go:119-125 | a hit through the digest branch is a hit on a destination whose hashed files are exactly those staged by an earlier run for the same URI, none of them left in staging |
| `CacheHits.VerifiedHitExact` | cmd/storage-initializer/main.go:115-118 | a hit on a Verified record is for an OCI URI, and complete if and only if the digest that this branch skips would have matched |
| `CacheHits.InterruptedOciCommit` | cmd/storage-initializer/main.go:115-118 | an OCI commit cut after t renames is answered by a Verified hit as soon as the record is among them, and that hit is complete if and only if the remaining entries hold no hashed file |
| `CacheHits.VerifiedHitOnMissingPayload` | cmd/storage-initializer/main.go:113-118 | for every OCI payload of one file that sorts after the record directory, a crash after the first rename makes the next run accept a destination without that file |
| `RecordLinks.PublishedFilesExactly` | cmd/storage-initializer/main.go:389-399 | what is published hashes like what was assessed if and only if the payload has no link at the record path, or that link leads to the state file or to a file that already reads like the record |
| `RecordLinks.LinkedRecordTrusted` | cmd/storage-initializer/main.go:107-118 | an uninterrupted OCI run whose payload links the record path to another entry is answered next by a Verified hit, complete if and only if that entry already read like the record |
| `WholeCommits.WholeIsFinal` | cmd/storage-initializer/main.go:107-131 | what a whole commit left is never changed by a later checked run: its own URI hits, any other is refused |
| `WholeCommits.EveryHitIsComplete` | cmd/storage-initializer/main.go:107-127 | in histories where no commit is cut short, a hit of either branch is a hit on exactly the files of an earlier run for its URI |
| `Recovery.CutResumesExactly` | cmd/storage-initializer/transaction.go:30-100 | for records that are not Verified: after a crash at any effect the next run resumes, by a complete digest hit or by reaching an empty destination, if and only if the last effect was not the staging directory creation or a truncation of the state file; after those no later run changes anything |
| `Recovery.FaultResumesExactly` | cmd/storage-initializer/transaction.go:30-150 | for every fault, crash or failed call: the next run resumes if and only if no crash hit right after the staging directory creation or a state truncation and no failed rename discarded the record or a hashed file; otherwise no later checked run changes anything |
| `Recovery.HistoryResumes` | cmd/storage-initializer/transaction.go:30-100 | for every history of runs for one URI, cut or failed anywhere, recovery included: the next run resumes if and only if no fault of the history lost anything |
| `Recovery.LostIsStuck` | cmd/storage-initializer/transaction.go:59-71 | staging alone without a readable state is refused by every later checked run, whatever its URI |
| `Recovery.ErrorDuringCommit` | cmd/storage-initializer/transaction.go:141-149 | a rename that fails after t others runs the cleanup, which leaves those t entries and discards the rest |
| `Recovery.FailedCommitExactly` | cmd/storage-initializer/transaction.go:52-57 | what a failed commit leaves is final for every later checked run, and it answers as a hit if and only if the record was renamed and no hashed file was discarded |
| `Recovery.CompletedRunHits` | cmd/storage-initializer/main.go:129-175 | a run that is not interrupted leaves exactly the files it pulled, and the next run for its URI hits with the record it wrote, by the branch its scheme calls for |
| `Witness.SchemeBefore` | cmd/storage-initializer/main.go:93-98 | the scheme of a URI is the text before its separator, for every scheme without a colon |
| `RunRules.SchemeExactly` | cmd/storage-initializer/main.go:93-98 | a URI has no scheme if and only if no separator occurs in it, and otherwise its scheme is the text before the first one |
| `RunRules.RecordFieldsExactly` | cmd/storage-initializer/main.go:200-328 | every field of a written record per scheme: what cosign returned, the fallback to the digest of its provenance output, the digest of the staged files |
| `RunRules.PublishesExactly` | cmd/storage-initializer/main.go:137-174 | when a run reaches its renames, in terms of the pull, the verifier, cosign, links in the payload and what stands at the record path and the state file |
| `RunRules.PreparesExactly` | cmd/storage-initializer/transaction.go:30-100 | a run may start on a destination if and only if it is empty, or holds nothing but staging of an interrupted download of its URI, or staging of an interrupted commit of its URI that lists everything beside it |
| `RunRules.StatesPersisted` | cmd/storage-initializer/transaction.go:30-140 | what the state file says once staging is open and once the commit is announced: the phase and the complete sorted listing of what will be renamed |
| `RunRules.CacheAnswerExactly` | cmd/storage-initializer/main.go:107-127 | for every destination and run, which of the four answers the cache check gives and with which record |
| `RunRules.SkipLeavesAlone` | cmd/storage-initializer/main.go:107-111 | a run that skips the check changes nothing on any destination that is not empty, under every fault |
| `RunRules.SkipStoresPayload` | cmd/storage-initializer/main.go:129-175 | from an empty destination an uninterrupted run that skips the check leaves exactly its payload, without a record |
| `RunRules.RefusedLeavesAlone` | cmd/storage-initializer/main.go:93-105 | a URI without a scheme or without a client changes nothing, under every fault |
| `RunRules.UnpublishedLeavesNothing` | cmd/storage-initializer/main.go:129-174 | an uninterrupted run that starts and has nothing to publish leaves an empty destination |
| `Witness.StoredThenHit` | cmd/storage-initializer/main.go:107-175 | for every host and every one-file run that can store, storing and asking again is a complete hit by the branch the scheme calls for |
| `Witness.DigestHitsOccur` | cmd/storage-initializer/main.go:119-125 | a host with faithful codecs and a collision-free hash exists, and some history on it ends in a digest hit, so the history theorems are not vacuous |
| `Initializer.ReadDir` | cmd/storage-initializer/transaction.go:131-139 | the entries of a directory, each once, in ascending order |
| `Initializer.HashTree` | cmd/storage-initializer/transaction.go:152-199 | the bytes fed to the hash are the stream of the ordered walk, whose files `TreePaths.FilesExactly` names, or it stops at a symbolic link |
| `Initializer.DirectoryDigest` | cmd/storage-initializer/transaction.go:152-199 | the digest of that stream, or an error if and only if a link is reached, which `TreePaths.CleanExactly` decides |
| `Initializer.Volume.WriteStagingState` | cmd/storage-initializer/transaction.go:102-108 | truncates and then writes the state file; every call that may fail on the way is accounted for |
| `Initializer.Volume.RecoverStagingTransaction` | cmd/storage-initializer/transaction.go:59-100 | performs exactly the removals that recovery is specified by, up to the call that fails, and reports success if and only if recovery accepts and no call fails |
| `Initializer.Volume.PrepareStagingDirectory` | cmd/storage-initializer/transaction.go:30-57 | recovery, directory creation and the first state write, up to the failing call, with the directory taken away again after a failed state write |
| `Initializer.Volume.AssessProvenance` | cmd/storage-initializer/main.go:200-254 | provenance first, then the digest of what was pulled; the record or the failure |
| `Initializer.Volume.WriteCacheRecord` | cmd/storage-initializer/main.go:389-399 | creates the record directory and writes the record into staging, through a link if the payload brought one, up to the failing call |
| `Initializer.Volume.CommitStagingDirectory` | cmd/storage-initializer/transaction.go:130-150 | persists the listing and then renames in listing order, up to the failing call; succeeds if and only if nothing fails and no entry is named like staging |
| `Initializer.Volume.CheckDestination` | cmd/storage-initializer/main.go:107-127 | which branch of the cache check answers, for every destination; `RunRules.CacheAnswerExactly` gives the condition of each |
| `Initializer.Volume.Execute` | cmd/storage-initializer/main.go:46-176 | one run with at most one failing call: its effects and the destination it leaves are those of the step that all history theorems speak of, and it stores a payload if and only if the cache misses, staging can be prepared, the payload can be published and no call up to the last rename fails |
| `Chaos.SortUnique` | internal/chaos/engine.go:268 | two orderings by name of the same pods with distinct names are the same list |
| `Chaos.ShuffleKeepsPods` | internal/chaos/engine.go:269-271 | the shuffle loses and duplicates no pod |
| `Chaos.ShuffleReachesAll` | internal/chaos/engine.go:269-271 | every arrangement of the pods is reached by some sequence of draws, so no pod is excluded |
| `Chaos.ShuffleByRemoval` | internal/chaos/engine.go:269-271 | an independent form of the shuffle: the last draw sends the pod at its position to the end, the former last pod fills the gap, and the others are shuffled by the remaining draws |
| `Chaos.SelectionExactly` | internal/chaos/engine.go:259-273 | below the number of pods, a list is the selection if and only if it is the head of the shuffled name order |
| `Chaos.SelectionByPosition` | internal/chaos/engine.go:259-273 | the effect of one draw: the selection in name order with exactly that place and the drawn one exchanged; draws that point at themselves select the first pods in name order |
| `Chaos.EverySelectionPossible` | internal/chaos/engine.go:259-273 | below the number of pods every arrangement of the requested count is selected by some draws, so the selection depends on the seed |
| `Chaos.CountBounds` | internal/chaos/engine.go:260-263 | the share is rounded down and stays within the percentage, except that one pod is always taken from a non-empty list |
| `Chaos.SelectionFromPods` | internal/chaos/engine.go:259-273 | every selected pod was offered and none is selected more often than offered |
| `Chaos.SelectionReproducible` | internal/chaos/engine.go:259-273 | for two permutations of the same pods with distinct names and the same draws, the selections are equal if and only if fewer than all pods are selected or the lists were already in the same order; as sets they are always equal |
| `Chaos.SortByName` | internal/chaos/engine.go:268 | in place: ordered by name and the same pods |
| `Chaos.Shuffle` | internal/chaos/engine.go:269-271 | in place: the swap sequence of the draws, tied to its functional form |
| `Chaos.SelectTargets` | internal/chaos/engine.go:259-273 | returns a selection in the sense of the laws above: all pods as given, or the first of the shuffled sorted pods |
| `Chaos.RunningExactly` | internal/chaos/engine.go:249-256 | the listed targets are exactly the running pods, each as often as the server listed it |
| `Chaos.RunningSplits` | internal/chaos/engine.go:249-256 | the targets of two listings are the targets of their concatenation, in listing order, and a pod alone is a target if and only if it is running |
| `Chaos.ListTargetPods` | internal/chaos/engine.go:249-256 | the running pods in listing order: a pod is among them if and only if it is listed and running |
| `Chaos.RunOnTargets` | internal/chaos/engine.go:146-202 | counts all targets, affects the selection in order up to the first failing call, and completes if and only if no call fails |
| `Chaos.BlastRadius` | internal/chaos/engine.go:146-202 | whatever call fails, the affected pods are distinct, listed and running, and within the validated percentage, or a single pod |
| `AccessPolicy.DecisionExact` | internal/accessplane/policy.go:98-151 | for every request and observation, with the conditions written out: admission if and only if the tenant is below its limits and some target of the route is observed, ready and below its own limit; otherwise which refusal with which reason, and the headroom reported |
| `AccessPolicy.AdmitsFirstEligible` | internal/accessplane/policy.go:112-117 | the admitted model is that of the least target that is observed, ready and below its limit, and no other target of the route names it |
| `AccessPolicy.AdmissionMonotone` | internal/accessplane/policy.go:98-151 | for valid observations, less load or more readiness never worsens the disposition, never moves the admitted target later and never shrinks reported headroom |
| `AccessPolicy.RunSafe` | internal/accessplane/policy.go:98-151 | every sequence of arrivals, retries, completions and readiness changes that obeys the decisions keeps the limits, from any state within them |
| `AccessPolicy.EveryRunSafe` | internal/accessplane/policy.go:98-151 | from an idle plane: tenant in-flight and queue depth stay within their limits, and each model within the largest limit of a target naming it |
| `AccessPolicy.AdmittedIsReady` | internal/accessplane/policy.go:98-120 | whatever event makes a request active, it names a model that is ready at that moment and below the limit of a target of its route |
| `AccessEvaluator.ValidateTargets` | internal/accessplane/policy.go:190-208 | accepts exactly the non-empty target lists with named, positive, pairwise distinct models |
| `AccessEvaluator.ValidatePolicy` | internal/accessplane/policy.go:169-188 | accepts exactly the valid tenant policies |
| `AccessEvaluator.ClonePolicy` | internal/accessplane/policy.go:210-218 | an equal policy in objects allocated by the call |
| `AccessEvaluator.AcceptableExactly` | internal/accessplane/policy.go:83-95 | a policy list is acceptable if and only if every policy is valid and tenant names are distinct, and then each is found under its tenant |
| `AccessEvaluator.NewEvaluator` | internal/accessplane/policy.go:83-95 | succeeds if and only if the list is acceptable, and then holds its catalog in objects that did not exist before |
| `AccessEvaluator.Evaluator.Evaluate` | internal/accessplane/policy.go:98-120 | decides as the catalog it holds says, for every request and observation |
| `AccessEvaluator.AnswerAmidMutation` | internal/accessplane/policy.go:83-120 | a caller that builds an evaluator and then rewrites all of its own policy objects arbitrarily before every request gets, for every request, the decision of the catalog as it was when the evaluator was built |
| `TokenBudget.Enforcer.RestoreFromAnnotation` | internal/auth/enforcement.go:43-47 | sets the balance of one subject; the ledger step the laws below speak of |
| `TokenBudget.Enforcer.Remaining` | internal/auth/enforcement.go:51-59 | the balance, or -1 for an untracked subject |
| `TokenBudget.Enforcer.Consume` | internal/auth/enforcement.go:63-75 | accepts if and only if the subject is untracked or covered; the new ledger is the one the laws below speak of |
| `TokenBudget.Enforcer.EnforceBudget` | internal/auth/enforcement.go:87-122 | the request passes if and only if it is not budgeted or its balance, initialised from the claim when untracked, is positive |
| `TokenBudget.Enforcer.RecordConsumption` | internal/auth/enforcement.go:126-132 | consumes for budgeted claims only and drops a refusal |
| `TokenBudget.GateExactly` | internal/auth/enforcement.go:87-122 | by the fields of the claims: when a request passes, tracked or not, and which balance a first request opens |
| `TokenBudget.ReportExactly` | internal/auth/enforcement.go:126-132 | by the fields of the claims: when a report is charged and what it leaves |
| `TokenBudget.LedgerAudited` | internal/auth/enforcement.go:43-132 | under every interleaving and for reports of either sign the balance is what an auditor computes from the calls and their answers alone, last base minus accepted consumptions, wrapped to int64; the plain difference if and only if that is an int64 |
| `TokenBudget.NeverNegative` | internal/auth/enforcement.go:63-75 | with funded bases every balance stays non-negative throughout if and only if no accepted report pushes one past int64, which no non-negative report can |
| `TokenBudget.OthersUntouched` | internal/auth/enforcement.go:43-132 | a refused consumption changes nothing and no critical section touches another subject |
| `TokenBudget.ExhaustedExactly` | internal/auth/enforcement.go:43-132 | a balance of zero or less stays so through any interleaving without a restore if and only if no negative charge of that subject lifts it; non-negative charges never do |
| `TokenBudget.ExhaustedStaysClosed` | internal/auth/enforcement.go:87-122 | as long as no negative charge lifts it and nothing restores it, no budgeted request of an exhausted subject passes |
| `TokenBudget.AcceptedExactlyIfCovered` | internal/auth/enforcement.go:63-75 | whatever is interleaved, all charges of a subject are accepted if and only if their total fits the balance, and then the balance drops by that total |
| `TokenBudget.RoundsPassExactly` | internal/auth/enforcement.go:87-132 | for every positive balance and every non-negative report: k rounds of asking and then reporting all pass the gate unless the report divides the balance and k of it exceed it |
| `TokenBudget.FirstRoundsExactly` | internal/auth/enforcement.go:87-132 | the same for a subject seen for the first time: the claim opens the balance, and the rounds pass as they do for a tracked one |
| `TokenBudget.RaisesExactly` | internal/auth/enforcement.go:63-75 | a charge raises the balance if and only if it is negative, accepted and does not wrap around |
| `TokenBudget.WrapClosesGate` | internal/auth/enforcement.go:63-75 | the wrap-around input: a report of -1 on a balance of MaxInt64 is accepted, leaves MinInt64 and closes the gate |
| `KeyCache.IndexUnique` | internal/auth/oidc_middleware.go:325-333 | a published key set has one index: for each kid the last RSA key under it |
| `KeyCache.Verifier.ReadFresh` | internal/auth/oidc_middleware.go:274-279 | is the first-read step of the transition system; hits if and only if the key is cached and its set younger than the TTL, and then answers with it |
| `KeyCache.FirstReadExactly` | internal/auth/oidc_middleware.go:274-279 | in every consistent state the first read answers a caller with the key of the last installed set if and only if there is one, it holds the kid and it is younger than the TTL |
| `KeyCache.SecondReadExactly` | internal/auth/oidc_middleware.go:286-292 | once a set is installed, the second read answers with its key if it holds the kid, and otherwise with its absence |
| `KeyCache.Verifier.RefreshJwks` | internal/auth/oidc_middleware.go:296-336 | is the fetch step of the transition system; on success the keys are the index of the fetched set and the time is now, on failure neither changes |
| `KeyCache.IndexKeys` | internal/auth/oidc_middleware.go:325-332 | the loop over the published set builds its index |
| `KeyCache.Verifier.ReadAgain` | internal/auth/oidc_middleware.go:286-292 | is the second-read step of the transition system and returns its answer |
| `KeyCache.Verifier.GetPublicKey` | internal/auth/oidc_middleware.go:273-293 | a lone caller is a run of the transition system that ends in the answer returned: the cached key if and only if it is cached and its set younger than the TTL, otherwise that of a set fetched since, or the fetch failure |
| `KeyCache.EveryAnswerFresh` | internal/auth/oidc_middleware.go:273-336 | in every interleaving of any number of callers: an answer of the first read comes from a set installed less than the TTL before the call, every other answer, absence included, from a set installed since the call |
| `KeyCache.ReturnedKeyIsFresh` | internal/auth/oidc_middleware.go:273-293 | every returned key belongs to a set installed no earlier than the call minus the TTL |
| `KeyCache.ChangesTogether` | internal/auth/oidc_middleware.go:296-336 | keys and fetch time change only together and only by a successful fetch |
| `Conformance.Suite.Register` | internal/conformance/conformance_suite.go:29-44 | accepts a vector if and only if the suite with it is valid and free of repeated identifiers |
| `Conformance.Suite.RegisterMany` | internal/conformance/conformance_suite.go:47-54 | registers the longest acceptable prefix, succeeding if and only if that is the whole batch |
| `Conformance.TallyResult` | internal/conformance/conformance_suite.go:161-174 | one counter moves by one for a known verdict, none for an unknown one |
| `Conformance.Resolve` | internal/conformance/conformance_suite.go:178-201 | a hard violation overrides the lattice verdict and denies trust |
| `Conformance.Evaluate` | internal/conformance/conformance_suite.go:130-158 | the counters count, the coverage covers, and the verdict is the least upper bound, or halt if a hard anti-invariant is not satisfied |
| `Conformance.JoinUnique` | internal/conformance/types.go:72-87 | a list of results has one least upper bound |
| `Conformance.VerdictOrder` | internal/conformance/types.go:72-87 | the five verdicts in their order, and every other text below them |
| `Conformance.VerdictByOccurrence` | internal/conformance/conformance_suite.go:130-201 | the verdict, dominance and trust of a summary in terms of which verdicts and severities occur among the results |
| `Conformance.PermutationInvariant` | internal/conformance/conformance_suite.go:130-201 | permuting the results changes nothing in the summary but the order of the reported results |
| `Conformance.ConcatenationJoins` | internal/conformance/conformance_suite.go:130-201 | evaluating a concatenation is joining verdicts by rank, adding counters and coverage, and conjoining viability |
| `Conformance.ViableExactly` | internal/conformance/types.go:137-139 | a summary is viable if and only if its verdict is not halt, if and only if no hard anti-invariant fails and no result halts |
| `Conformance.CoverageSumsToTotal` | internal/conformance/conformance_suite.go:142 | class counts over any duplicate-free list of the classes add up to the number of results |
| `Conformance.TalliesSumExactly` | internal/conformance/conformance_suite.go:161-174 | the five tallies add up to the total if and only if every verdict is known |
| `SecretRef.IndexOf` | internal/controller/imagepullsecret_reconciler.go:220-227 | the first occurrence, or -1 if and only if there is none |
| `SecretRef.SplitN` | internal/controller/imagepullsecret_reconciler.go:207-218 | joining the pieces gives back the input, at most n pieces, none but the last contains a non-empty separator, and with room to spare the last does not either |
| `SecretRef.ParseSecretRef` | internal/controller/imagepullsecret_reconciler.go:199-205 | succeeds if and only if the reference is two non-empty parts around its first slash, and returns exactly those parts |
| `ArtifactPolicy.PredicateStageExact` | internal/aipack/policy.go:96-107 | accepts if and only if no required predicate is absent, and otherwise names the first absent one |
| `ArtifactPolicy.DecisionExact` | internal/aipack/policy.go:31-118 | for every policy and artifact: acceptance if and only if all four stages admit it, and the deny code of the first stage that does not |
| `ArtifactPolicy.BandsByName` | internal/aipack/policy.go:147-167 | the order of the four risk bands by their names, and that no other name is a band |
| `ArtifactPolicy.RiskByName` | internal/aipack/policy.go:109-118 | for a policy that sets a maximum, the risk stage by band names: exactly the bands up to it pass |
| `ArtifactPolicy.FamilyByName` | internal/aipack/kinds.go:9-32 | the family of every kind by name, and the denial of a bundle whose kind is unknown |
| `ArtifactPolicy.BundleAcceptsExactly` | internal/aipack/validators_operational.go:150-163 | for a known kind the bundle check accepts if and only if the policy accepts that kind with its canonical family for all predicate lists and all risk bands |
| `ArtifactPolicy.EvaluationMonotone` | internal/aipack/policy.go:96-118 | more predicates and a lower band never turn acceptance into denial |
| `ArtifactPolicy.ShorterAllowLists` | internal/aipack/policy.go:56-94 | what a policy with shortened allow-lists accepts was accepted before, if and only if the family list was not emptied or the family was listed |
| `RiskValence.BandForScore` | internal/aipack/riskvalence.go:69-76 | the band of a score, with the interval of each band written out, scores above the table included |
| `RiskValence.Compute` | internal/aipack/riskvalence.go:41-63 | fails if and only if the weights do not sum to 100; otherwise the truncated, clamped weighted sum and its band |
| `RiskValence.RawOfOnly` | internal/aipack/riskvalence.go:52-55 | each signal is multiplied by its own weight: the sum for a single signal is that signal times its weight |
| `RiskValence.RawAdds` | internal/aipack/riskvalence.go:52-55 | the weighted sum of added signals is the sum of the weighted sums |
| `RiskValence.ScoreExactly` | internal/aipack/riskvalence.go:56-60 | the score is the weighted sum truncated toward zero and capped at 100; nothing bounds it from below |
| `RiskValence.ScoreMonotone` | internal/aipack/riskvalence.go:52-63 | raising signals never lowers score or band, for non-negative weights |
| `RiskValence.ScoreInRange` | internal/aipack/riskvalence.go:52-60 | with non-negative weights summing to 100 and normalised signals the score lies in 0..100 and the clamp never acts |
| `RiskValence.RangeExactly` | internal/aipack/riskvalence.go:41-63 | for weights summing to 100, all normalised signals score within 0..100 if and only if no weight is negative; the code does not check this |
| `RiskValence.MonotoneExactly` | internal/aipack/riskvalence.go:41-63 | scores of normalised signals are monotone if and only if no weight is negative |
| `Conversion.CopyStrings` | api/v1alpha2/conversion_specialized.go:190-195 | keeps the elements, and the value itself if and only if it is not empty-but-not-nil |
| `Conversion.ConvertScheduler` | api/v1alpha2/conversion_router.go:70-81 | keeps pool, replicas and the reference; the whole value if and only if its configuration is absent or reference-only |
| `Conversion.ConvertHttp` | api/v1alpha2/conversion_router.go:25-30 | keeps hostnames and resilience; the whole value if and only if its hostname list is not empty-but-not-nil |
| `Conversion.ConvertRouter` | api/v1alpha2/conversion_router.go:12-54 | the gateway unchanged, scheduler and route normalised |
| `Conversion.ConvertParallelism` | api/v1alpha2/conversion_model.go:90-102 | every field kept; the whole value if and only if its device list is not empty-but-not-nil |
| `Conversion.ConvertTools` | api/v1alpha2/conversion_specialized.go:132-144 | both lists kept; the whole value if and only if neither is empty-but-not-nil |
| `Conversion.ConvertModel` | api/v1alpha2/conversion_model.go:12-48 | the model, storage and external secret survive unchanged, nil against empty data included |
| `Conversion.ConvertScaling` | api/v1alpha2/conversion_model.go:104-158 | the scaling spec survives unchanged |
| `Conversion.ConvertKvCache` | api/v1alpha2/conversion_specialized.go:56-98 | the cache spec survives unchanged, nil against empty map and environment included |
| `Conversion.ConvertStatus` | api/v1alpha2/conversion.go:40-49 | the status survives unchanged |
| `Conversion.ConvertExperimentalTo` | api/v1alpha2/conversion_specialized.go:13-34 | folds the eight fields into a block, and leaves the destination alone when all are empty |
| `Conversion.ConvertExperimentalFrom` | api/v1alpha2/conversion_specialized.go:36-54 | unfolds the block, overwriting three fields only with something and nothing from a nil block |
| `Conversion.ConvertTo` | api/v1alpha2/conversion.go:21-52 | the destination becomes the hub value of the source, given the block it held; its type metadata is kept |
| `Conversion.ConvertFrom` | api/v1alpha2/conversion.go:55-86 | the destination becomes the spoke value of the source, given the fields it held; its type metadata is kept |
| `Conversion.SpokeRoundTripExactly` | api/v1alpha2/conversion.go:21-86 | spoke to hub and back is the identity if and only if the scheduler configuration is absent or reference-only and no device, hostname or tool list is empty-but-not-nil |
| `Conversion.HubRoundTripExactly` | api/v1alpha2/conversion.go:21-86 | hub to spoke and back is the identity if and only if the hub is in the same normal form and has no all-empty experimental block |
| `Conversion.Retraction` | api/v1alpha2/conversion.go:21-86 | To after From after To is To, From after To after From is From, and results are always normal |
| `Conversion.LostExactly` | api/v1alpha2/conversion.go:21-52 | two spoke objects convert to the same hub object if and only if they differ only in nil against empty in those lists and in what a configuration holds beside its reference |
| `Conversion.StaleHubShowsExactly` | api/v1alpha2/conversion_specialized.go:13-18 | a reused hub object gives the same result as a fresh one if and only if the spoke has an experimental field or the object had no block |
| `Conversion.StaleSpokeShowsExactly` | api/v1alpha2/conversion_specialized.go:36-54 | a reused spoke object gives the same result as a fresh one if and only if its conditional fields are overwritten or were empty |

## Left out

- Initializer.Volume.Execute: at most one modifying filesystem call per run fails, and directory and file reads never do; a crash is modelled in `Transaction.After` only, since a method always reaches its end.
- Tree.StreamInjective: SHA-256 itself is a parameter assumed collision-free where a theorem says so; only the bytes fed to it are modelled.
- KeyCache.EveryAnswerFresh: the clock is monotone and the HTTP exchange is an arbitrary response; request cancellation is not modelled.
- Chaos.SelectTargets: the generator behind a seed is an arbitrary sequence of draws of the right length, and the product of count and percentage does not overflow.
- RiskValence.Compute: exact reals instead of floating point, and no wrap-around of the weight sum.
- Conversion.ConvertTo: pointers, slices and maps are values, so sharing between source and destination after a shallow copy is not captured; both API versions declare the converted components with the same fields, so the model has one type for each.
- Conversion.ConvertFrom: as for ConvertTo.
- Filesystem: the destination is an existing directory; removal of a tree is atomic; writing a file is a truncation followed by a write; a rename onto an entry named like staging fails.
- Links and devices in a payload: a link leads to a top-level entry of the payload; links that lead elsewhere, a link or device at the state file, and a device at the record path are outside the modelled payloads (`Transaction.Ordinary`).
- CacheHits.RecordExact: payloads that link the record path are excluded by `Completeness.Checked`, as in the other history theorems; `RecordLinks` states exactly what such a link does.
- Pull: writes part of an arbitrary payload and then all of it, and may then report failure; storage clients, Vault injection, cosign and the termination log are inputs or absent.
- Verification record: its key, certificate and time annotations, which no decision reads, and its JSON encoding, which is assumed to be parsed back.
- Runs with `--skip-checksum`: their cache answer and effects are stated by `RunRules`; they are excluded from the histories of the cache theorems, since they leave no record.
- ValidateExperiment, RunExperiment, network partitions and cleanup in the chaos engine: easy checks and Kubernetes calls.
- EvaluateContext in the access plane: two context checks around the modelled evaluation.
- EnforceModelAccess, token extraction, JWT validation and the rest of the OIDC middleware.
- ConformanceSuite.Run and the concrete vectors: fixed-outcome fixtures.
- AIPACK lineage, air-gap, VAD, outlier, blast radius and trigger validators and the composite digest: stubs or approximations.
- Conversion of the other kinds in conversion_extra.go: repetitive field copies.
- Reconcilers, manager wiring, generated deep copies, feature gates, Dagger pipelines, Helm checks and the console.
