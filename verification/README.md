# CapsLock core, verified

A model of the parts of CapsLock whose correctness is hard to see by reading them, with proofs. `dafny verify
dfyconfig.toml` checks all of it.

## What is modelled

**Strict schemas** (`JsonSchema`, `StrictSchema`, `StrictPaths`, `StrictProvider`, `StrictLimits`, `SchemaTree`). A provider only
takes schemas in which every property is required. CapsLock rewrites a schema so that optional properties become
required and nullable, and drops the nulls from the answer. `Accepts` defines what a schema accepts, from JSON
Schema draft 2020-12. For schemas whose objects and arrays have a single type and no combinator (`Coherent`), the
rewriting and the stripping are inverse to each other between the values of the two schemas. `SchemaTree` is the
in-place form over mutable documents, proved against the same function. `StrictLimits` gives for each condition of
that fragment a value that fails and exactly when it is harmless, or how far soundness reaches beyond it. `StrictPaths`
says what the rewriting and the checks before it do at the end of every path into a schema. Three
results a maintainer may want to know: an optional property of the single type `null` makes the entry point fail, a
required key that is not declared is forgotten, and an optional property whose `enum` lacks null cannot be left out
of an answer.

**Publishing** (`Publishing`, `PublishRuns`). Verified artifacts of a child go into the parent workspace: stage,
prepare, revalidate, back up, replace, roll back. The manager is a class over a mutable map of files. Every
file-system operation may raise or, for a copy, deliver other bytes, and writers that ignore the lock may act
before every replacement and before every look of a snapshot, which takes no lock. `PublishRuns` puts the looks of
snapshots, publishes and parent edits together into runs, and a call of the class is proved to be a stretch of such a
run. A digest determines its content.

**Numbers** (`LinearAlgebra`, `GaussianProcess`, `Statistics`, `SimplexRounding`). The triangular factorisation and
solves, the posterior of the Gaussian process, the score interval of a proportion, percentiles, and the rounding of
sampled weights, in exact reals. `sqrt` is any function with a non-negative result whose square is the argument,
`exp` is any function.

**Foreground controller** (`Foreground`, `ForegroundOrder`, `ForegroundIdle`, `ForegroundController`). The queue, the worker, recall,
cancel and shutdown are a state machine whose steps are the stretches between two awaits, and which keeps the lock
held across them. The class has one method for each stretch; each method is proved to be one step.

**Wakeup registry** (`Wakeup`, `WakeupLimits`, `WakeupRegistry`). Versioned mailboxes, their readers and conditional
close, again as a state machine and as a class. The runs of the machine are more than those of the code: a step may act
on a mailbox that was found earlier, while the code never suspends between finding a mailbox, taking its lock and acting
on it. Of this the main results need one thing only, that `unregister` closes and removes in one stretch
(`Unregisters`). `WakeupLimits` has a run that suspends there, which the code cannot take, and loses a wakeup.
`generation` names a mailbox throughout.

**Child tasks** (`ChildRun`, `Scheduling`, `Admission`, `ReceiverScope`). One run of a task against its records,
one round of assignment, the limits on live workers and concurrent runs over whole runs of the service, and the
runs whose mail a resumed run may read. Permits of the semaphore are held by runs, and runs work on attempts. A
method of the source that raises returns false or `Raised` here.

**Instructions** (`Instructions`). Which instruction files fit the token budget.

**Markup-safe JSON** (`MarkupSafeJson`, `ShortestJson`). Printing JSON so that it can stand inside markup, and a reader after RFC
8259, sections 2 to 7.

Where a property that one would expect does not hold, the code is kept as it is. A lemma gives a run or a value
that shows the failure, and others say when the property holds: `SoundIffListedStripped`, `ItemsSoundIff`,
`OneVariantSoundIff` and `UnstrippedSound` beside the values of `StrictLimits`; `OverwritesCopyIff` beside
`EditBetweenReads`; `IdleOverWorkIff` and `BusyAtRestIff` beside `OverlapLeavesIdleBusy` and `RecallLeavesBusy`;
`RevivedIff` and `RowsExceedIff` beside `StoppedUnderATask` and `ApprovalsExceedRows`; `LastWeightIff` beside
`LastWeightCanBeNegative`.

## Model

| member | source | states |
|---|---|---|
| StrictSchema.StrictFixed | capslock/structured_output.py:161-193 | The rewriting is idempotent on every schema, combinators, type lists and untyped subschemas included. |
| StrictSchema.StrictSound | capslock/structured_output.py:565-585 | Soundness at any nesting: a value the strict schema accepts becomes, once the padded nulls are stripped, a value the original schema accepts; `minItems`, `maxItems` and `uniqueItems` survive. |
| StrictSchema.PadUndoesStrip | capslock/structured_output.py:565-585 | Nothing is lost: padding a stripped value with nulls gives the accepted value back. |
| StrictSchema.StripInjective | capslock/structured_output.py:565-585 | Two different values the strict schema accepts are never stripped to the same value. |
| StrictSchema.StripUndoesPad | capslock/structured_output.py:565-585 | Stripping undoes the padding of every value of the original schema that the strict form can express. |
| StrictSchema.PadAccepted | capslock/structured_output.py:161-193 | Completeness: every expressible value of the original schema, padded with nulls, is accepted by the strict schema. |
| StrictSchema.StripExpressible | capslock/structured_output.py:565-585 | Every stripped value is expressible, so the two directions are about the same set of values. |
| StrictSchema.StrictCounterpartIff | capslock/structured_output.py:161-193 | A value of the original schema comes from some strict value if and only if it has declared keys only, no null that stripping would drop, and every missing optional property admits null; the strict value is then unique. |
| StrictSchema.NullableAccepts | capslock/structured_output.py:186-193 | Making a schema nullable changes nothing for values other than null. |
| StrictSchema.NullableNullIff | capslock/structured_output.py:186-193 | Null under the nullable form of any schema: the type always lets it through, an `anyOf` without a type does too, and everything else decides as it did. |
| StrictSchema.AdmitsNullIff | capslock/structured_output.py:186-193 | When an optional property admits the padded null, for every property schema: `enum` and `const` must allow it, and so must every strict member of an `allOf`, exactly one of a `oneOf`, and the `anyOf`; an `anyOf` gets a null variant exactly when the type is absent or names null already, and then it allows null. |
| StrictSchema.StrictObjectAccepts | capslock/structured_output.py:163-174 | A strict object takes exactly the declared keys, all of them, each under the strict or the nullable strict form of its property. |
| StrictLimits.SoundIffRequiredDeclared | capslock/structured_output.py:167-168 | Stripping an accepted object gives a value of the original schema if and only if every required key is declared: an undeclared one is forgotten by the rewriting. |
| StrictLimits.EnumOnObject | capslock/structured_output.py:565-585 | An `enum` on an object can break soundness: it is compared with the padded value first and with the stripped one later. |
| StrictLimits.SoundIffListedStripped | capslock/structured_output.py:565-585 | For objects and arrays that are coherent but for their own `enum` and `const`, soundness for all values holds if and only if every listed value that the rest of the strict schema accepts is still listed once it is stripped. |
| StrictLimits.VariantsAreNotStripped | capslock/structured_output.py:178-183 | A combinator over objects can break soundness: its variants are rewritten, but nothing is stripped below them. |
| StrictLimits.OneVariantSoundIff | capslock/structured_output.py:178-183 | A schema with one variant is sound if and only if the rewriting, without any stripping, only narrows the variant. |
| StrictLimits.ObjectNarrowsIff | capslock/structured_output.py:163-174 | For an object without combinators that is so if and only if it can never be filled, or every required key is declared, each optional property that is made to admit null admits it already, and the rewriting only narrows each property: the condition goes down the schema. |
| StrictLimits.UnstrippedSound | capslock/structured_output.py:161-183 | Combinators, and `items` under a list of types, are sound at any nesting where every object below declares and requires the same keys and there is no `oneOf`. |
| StrictLimits.ItemsUnderAListOfTypes | capslock/structured_output.py:175-177 | `items` under a list of types can break soundness: it is rewritten under any type and stripped under `array` only. |
| StrictLimits.ItemsSoundIff | capslock/structured_output.py:175-177 | `items` under a list of types is sound if and only if the rewriting, without any stripping, only narrows the schema of the elements. |
| StrictProvider.StrictProviderSucceedsIff | capslock/structured_output.py:48-55 | The entry point succeeds if and only if the schema is valid, uses supported keywords only, and has no optional property of the single type `null` where the rewriting reaches. |
| StrictPaths.ProvidedIff | capslock/structured_output.py:48-55 | The same condition said of every path into the schema: each subschema the metaschema reaches has a valid `type`, each one the keyword scan reaches (it does not look under `additionalProperties`) has no unsupported keyword, and no object the rewriting reaches has an optional property of the single type `null`. |
| StrictPaths.StrictAt | capslock/structured_output.py:161-193 | Along every path the rewriting takes, through properties, elements and all three combinators, the strict schema holds the strict form of the subschema there, in its nullable form exactly where the path ends in an optional property. |
| StrictPaths.EveryObjectStrict | capslock/structured_output.py:163-174 | Every object the rewriting reaches, at any depth and under any combinator, is closed, requires all of its properties, and takes null exactly if it was optional. |
| StrictPaths.OthersKept | capslock/structured_output.py:161-193 | The rewriting leaves everything else of those subschemas alone: other keywords, the number of variants, and of a schema that is no object also properties, required names and additional properties. |
| StrictProvider.StrictMetaValidIff | capslock/structured_output.py:186-193 | The second schema check fails exactly for such a property, whose type list would name `null` twice. |
| StrictProvider.StrictSupported | capslock/structured_output.py:118-158 | The rewriting never introduces a keyword that the scan for unsupported keywords refuses. |
| StrictProvider.MergeSucceedsIff | capslock/structured_output.py:508-534 | Merging a task schema fails only for a bad task schema, for one that is not an object, or for a protocol field that the task redeclares with another strict form, nullable if it is optional there. |
| StrictProvider.NothingToMerge | capslock/structured_output.py:513-514 | Without a task schema, or with an empty one, the strict protocol is returned. |
| StrictProvider.MergeAccepts | capslock/structured_output.py:508-534 | Whatever merging returns accepts a value if and only if its protocol part satisfies the strict protocol, its task part satisfies the strict task schema, and it has no other key; agreeing redeclared fields are allowed. |
| StrictProvider.MergedField | capslock/structured_output.py:521-533 | One field of the merged object is accepted exactly when every side that declares it accepts it, although task properties are made strict twice. |
| SchemaTree.SchemaNode.MakeStrict | capslock/structured_output.py:161-183 | The in-place rewriting of a tree of mutable documents leaves exactly the strict form of the document it started from, in the same object. |
| SchemaTree.SchemaNode.MakeNullable | capslock/structured_output.py:186-193 | In place, the document becomes its nullable form, of which `NullableAccepts` and `NullableNullIff` say which values it takes; an added `{"type": "null"}` variant is a fresh document. |
| SchemaTree.SchemaNode.StrictAllProperties | capslock/structured_output.py:169-174 | The loop over the properties leaves each child strict, and nullable too if it was not required when the loop began; no other part of the tree changes. |
| SchemaTree.SchemaNode.StrictVariants | capslock/structured_output.py:178-183 | The loop over the variants of one combinator makes each of them strict and touches no other child. |
| Publishing.AgentWorkspaceManager.Create | capslock/collaboration/workspace.py:112-124 | A snapshot is registered whole or not at all. Whatever foreign writers do meanwhile, every visible path was copied at one look at the parent and had its digest taken at a later one, or was absent at some look; without foreign writers the copy is the visible tree and the baseline its digests. |
| Publishing.AgentWorkspaceManager.CopyDirectory | capslock/collaboration/workspace.py:414-439 | One directory: after its listing every listed file was copied and recorded, or skipped because it was gone; a look that fails ends the walk. |
| Publishing.AgentWorkspaceManager.CopyFile | capslock/collaboration/workspace.py:430-439 | One file: skipped when it is gone, otherwise copied at one look and read again for its digest at the next; a file that goes in between makes the walk raise. |
| Publishing.AgentWorkspaceManager.Stage | capslock/collaboration/workspace.py:207-224 | Staging succeeds only when every artifact is inside the allowed paths, names a target of its own and has the verified content in the child's tree; without faults it then does succeed. |
| Publishing.AgentWorkspaceManager.Prepare | capslock/collaboration/workspace.py:226-257 | One temporary beside every target holds the staged content; only new temporaries are added to the workspace, each of them listed for the clean-up even after a failure. |
| Publishing.AgentWorkspaceManager.Revalidate | capslock/collaboration/workspace.py:324-341 | Passing means that every target still has its baseline content, or is still absent; without faults the converse holds. `CreateAndPublish` says it of the files themselves. |
| Publishing.AgentWorkspaceManager.BackUp | capslock/collaboration/workspace.py:267-285 | Every target with an original has a backup of its own that holds it; nothing else changes, and the backups made before a failure are listed. |
| Publishing.AgentWorkspaceManager.ReplaceAll | capslock/collaboration/workspace.py:287-289 | Targets are replaced in order up to the first that raises. The tree is the old one with foreign writes and our moves interleaved in their order. |
| Publishing.AgentWorkspaceManager.RollbackArtifacts | capslock/collaboration/workspace.py:351-375 | From any state of the tree, a replaced target is either restored, which happens only to content this publish wrote, or reported and left alone together with its backup; without faults it is reported exactly when a foreign writer changed it. |
| Publishing.AgentWorkspaceManager.RollBack | capslock/collaboration/workspace.py:290-301 | After a failed replacement, whatever foreign writers did: every replaced target has its original back, which only happens to content this publish wrote, or is left as it was found and reported with the place of its original; every other path is as it was found. Without reports the replacement raises, otherwise recovery is asked for. |
| Publishing.AgentWorkspaceManager.Commit | capslock/collaboration/workspace.py:286-301 | Replace, and undo on failure, for any foreign writes in between; a single fault never needs recovery when nobody else writes. |
| Publishing.AgentWorkspaceManager.CleanUp | capslock/collaboration/workspace.py:307-313 | All temporaries and all unreported backups are removed, and no other file. |
| Publishing.AgentWorkspaceManager.PublishArtifacts | capslock/collaboration/workspace.py:187-313 | All or nothing for every path that no foreign writer touches: after publishing it holds the verified write, or what it held; after raising, what it held; after a rollback that needs recovery, what it held, or the new content with the place of its original reported. With foreign writers: the writes interleaved with theirs, or every replaced target restored from our own content or left as found and reported. The baseline is updated for exactly the writes of a success. No temporary remains but the reported backups, and one fault is always undone. Without faults a publish that may be made is made, and one that may not be leaves the parent as it was. |
| Publishing.AgentWorkspaceManager.UpdateBaseline | capslock/collaboration/workspace.py:305-306 | The baseline records the digests of exactly the published targets and keeps its other entries. |
| Publishing.RollbackStep | capslock/collaboration/workspace.py:359-374 | Undoing one replacement, or reporting it, settles that target and disturbs none of those already settled. |
| Publishing.RollbackKeeps | capslock/collaboration/workspace.py:291-301 | However the rollback went, every reported backup still holds the original content. |
| Publishing.RollbackRestores | capslock/collaboration/workspace.py:351-375 | From whatever state the rollback finds: each replaced target is left alone and reported, or it held what this publish wrote and has its original back; no other parent file changes. |
| Publishing.LeftAlone | capslock/collaboration/workspace.py:286-301 | All or nothing for one path that foreign writers leave alone, whatever they do elsewhere. |
| Publishing.PublishedMeans | capslock/collaboration/workspace.py:286-289 | A path that foreign writers leave alone holds its write after all the moves, and what it held if there is none. |
| Publishing.CommitMeans | capslock/collaboration/workspace.py:286-301 | The three outcomes of the replacement phase, foreign writes included, in terms of the writes and the baseline: every target that was not restored has the place of its original among the reported ones. |
| PublishRuns.CreateAndPublish | capslock/collaboration/workspace.py:112-341 | A snapshot, work in the child and in the parent, and a publish, without faults and foreign writers: artifacts that are in the child's tree with their digests, inside the allowed paths and each with a visible target of its own, are published if and only if every target has in the parent exactly what it had at the snapshot, an empty file or its absence included; otherwise the publish raises and the parent stays as it was. |
| PublishRuns.PublishIsStep | capslock/collaboration/workspace.py:187-313 | Whatever a finished publish without foreign writers promises about the files is one step of a run. |
| PublishRuns.CreateIsSteps | capslock/collaboration/workspace.py:112-124 | A finished snapshot, with whatever foreign writers did during it, is a stretch of a run: a start, an edit and a look for each look at the parent, and the registration of what it took. |
| PublishRuns.BaselineSeen | capslock/collaboration/workspace.py:438-439 | Over any run, a recorded digest is that of the content the parent had at the second read of the snapshot, or of the child's own last publish of the path. |
| PublishRuns.NoLostUpdates | capslock/collaboration/workspace.py:324-341 | No lost updates: over any interleaving of snapshots read file by file, publishes and parent edits, as long as no file of the child differs between its two reads, a publish only ever overwrites content that its own child was given or wrote itself. |
| PublishRuns.OverwritesCopyIff | capslock/collaboration/workspace.py:437-439 | A first publish of a path overwrites what the child was given if and only if the file was the same at its two reads. |
| PublishRuns.UneditedIsSteady | capslock/collaboration/workspace.py:437-439 | The two reads agree if the file does not change between them. |
| PublishRuns.EditBetweenReads | capslock/collaboration/workspace.py:437-439 | A run in which a file is edited between its two reads, and the child's publish overwrites an edit it never saw. |
| PublishRuns.FirstPublish | capslock/collaboration/workspace.py:225-266 | A child's first publish of a path goes through only over what was there when its snapshot settled the path, by its second read or by finding it absent. |
| PublishRuns.AtMostOneCommits | capslock/collaboration/workspace.py:195-224 | Of two snapshots that recorded the same content, or absence, of a path, once one has committed a change of it the other cannot, unless somebody puts the old content back in between. |
| LinearAlgebra.Cholesky | capslock/evaluation/optimizer.py:34-46 | The factorisation never divides by zero and fills a lower triangle with positive diagonal whose every entry satisfies its defining equation. |
| LinearAlgebra.FactorProduct | capslock/evaluation/optimizer.py:34-46 | For every symmetric matrix, the factor times its transpose is the matrix plus a non-negative diagonal that is zero exactly where the pivot is at least 1e-12, and lifts it to 1e-12 elsewhere. |
| LinearAlgebra.Forward | capslock/evaluation/optimizer.py:49-56 | The result solves the lower triangular system exactly. |
| LinearAlgebra.Backward | capslock/evaluation/optimizer.py:59-67 | The result solves the transposed system exactly; the list is filled from its end. |
| LinearAlgebra.LowerUnique | capslock/evaluation/optimizer.py:49-56 | The lower system has no other solution. |
| LinearAlgebra.UpperUnique | capslock/evaluation/optimizer.py:59-67 | The transposed system has no other solution. |
| GaussianProcess.SolvesExactly | capslock/evaluation/optimizer.py:83 | The forward and then the backward solve give the one and only solution of the lifted covariance system. |
| GaussianProcess.ProjectedSquares | capslock/evaluation/optimizer.py:89-90 | The sum of the squared projections is the covariances times the solution of the lifted system for them. |
| GaussianProcess.Posterior | capslock/evaluation/optimizer.py:70-91 | Mean and variance are those of the Gaussian process for the lifted covariance matrix, and the variance stays between 1e-9 and 1. |
| GaussianProcess.PosteriorValues | capslock/evaluation/optimizer.py:84-91 | The variance is 1 less what the observations explain of it, but never less than 1e-9. |
| GaussianProcess.PosteriorAtObserved | capslock/evaluation/optimizer.py:70-91 | At an observed point the mean misses the outcome by the nugget and the lift times the coefficient of the point, and the variance is what exp(0) leaves of 1 plus the same multiple of its coefficient in the other solution, but at least 1e-9. |
| GaussianProcess.KernelFalls | capslock/evaluation/optimizer.py:21-31 | The kernel is exp(0) at equal points and exp(-1/2) at a distance of a quarter, and for an increasing `exp` it is smaller at the one of two points that is further away. |
| GaussianProcess.Covariances | capslock/evaluation/optimizer.py:74-84 | The covariance matrix and the covariances with the point hold exp of minus eight times the sum of the squared differences of the points, with 1e-6 more on the diagonal. |
| GaussianProcess.KernelSymmetric | capslock/evaluation/optimizer.py:25-31 | The kernel does not depend on the order of its arguments. |
| GaussianProcess.CovarianceSymmetric | capslock/evaluation/optimizer.py:74-80 | The covariance matrix is symmetric, and is the kernel matrix with the nugget on its diagonal. |
| GaussianProcess.PivotBound | capslock/evaluation/optimizer.py:38-45 | Every pivot bounds the quadratic form of the matrix from above at some vector with a 1 in its place. |
| GaussianProcess.RegularisedIsExact | capslock/evaluation/optimizer.py:34-46 | For a positive semidefinite kernel the 1e-6 nugget keeps every pivot above the 1e-12 floor, so the factor reproduces the matrix exactly. |
| GaussianProcess.ExactIsSemidefinite | capslock/evaluation/optimizer.py:34-46 | Conversely, only a positive semidefinite matrix is factored without the floor. |
| GaussianProcess.PosteriorIsExact | capslock/evaluation/optimizer.py:70-91 | For a positive semidefinite kernel the coefficients solve the covariance system itself, so the posterior is the textbook one. |
| SimplexRounding.RoundMicroIff | capslock/evaluation/optimizer.py:116 | Rounding gives the number of six decimals that is at most half a step away, and of two such numbers the one with an even last digit. |
| SimplexRounding.WeightsSumToOne | capslock/evaluation/optimizer.py:115-118 | The proposed weights have six decimals and add up to exactly one; each but the last is off by at most half a step, the last by at most half a step for each of the others. |
| SimplexRounding.LastWeightCanBeNegative | capslock/evaluation/optimizer.py:117-118 | There is a sampled point with positive weights whose last proposed weight is negative. |
| SimplexRounding.LastWeightIff | capslock/evaluation/optimizer.py:117-118 | The last proposed weight is non-negative if and only if the others, each rounded to millionths, add up to at most a million of them; it is what they leave. |
| SimplexRounding.LastWeightSafe | capslock/evaluation/optimizer.py:115-118 | All proposed weights are non-negative when the sampled ones are and the last of them is at least half a step for each of the others. |
| Statistics.WilsonIsScoreTest | capslock/evaluation/statistics.py:25-38 | The interval is exact score-test inversion: a proportion lies in it if and only if its squared distance from the rate is at most z squared times its variance over the sample size. |
| Statistics.WilsonBounds | capslock/evaluation/statistics.py:25-38 | The bounds are ordered, lie in [0, 1] and enclose the observed rate. |
| Statistics.WilsonGrows | capslock/evaluation/statistics.py:25-38 | A larger score gives an interval that contains the smaller one. |
| Statistics.PercentileIs | capslock/evaluation/statistics.py:10-22 | Of n values the percentile at (k + f) / (n - 1) lies the fraction f of the way from the k-th value in order to the next: the percentiles are the line through the values in order, evenly spaced. |
| Statistics.PercentileMonotone | capslock/evaluation/statistics.py:10-22 | A percentile grows with the quantile and is the smallest value at or below 0 and the largest at or above 1. |
| Foreground.AlwaysTidy | capslock/application/foreground.py:118-292 | In every reachable state no item id occurs twice across the queue, the active slot and a recall under way. |
| Foreground.Conservation | capslock/application/foreground.py:118-292 | In every reachable state every accepted request is in exactly one place: queued, in hand, finished, recalled, cancelled or drained by shutdown. |
| Foreground.StartedAreFinished | capslock/application/foreground.py:246-292 | STARTED and FINISHED alternate, each pair for one request; an open STARTED is the request the worker is on. |
| Foreground.StartedOnce | capslock/application/foreground.py:254-262 | No accepted request is started twice. |
| Foreground.StartOrder | capslock/application/foreground.py:134-137 | Requests enqueued without an index start in the order in which they were accepted, recalls and cancellations notwithstanding. |
| Foreground.IdleMeansNothingToDo | capslock/application/foreground.py:229-242 | Idle means an empty queue and nothing active: always until shutdown returns, and afterwards unless an enqueue overlapped it. |
| Foreground.NothingToDoMeansIdle | capslock/application/foreground.py:289-292 | Conversely, with the worker at rest and nothing queued the controller is idle, in runs without recall and shutdown. |
| ForegroundIdle.IdleOverWorkIff | capslock/application/foreground.py:229-242 | Idle is set over work if and only if shutdown set it while a request was queued or being recalled, something has been held ever since, and no new request has been accepted. |
| ForegroundIdle.HeldIsOverlooked | capslock/application/foreground.py:229-242 | Whatever shutdown sets idle over came in by a call that overlapped it, and after the worker had left unless the worker died of a failed cancellation. |
| ForegroundIdle.WrongFromIff | capslock/application/foreground.py:239-242 | The one step that makes the flag wrong is shutdown setting it while something is queued or being recalled. |
| ForegroundIdle.BusyAtRestIff | capslock/application/foreground.py:141-157 | In every run up to the end of shutdown, the controller is busy with nothing to do if and only if a recall took the last request, or shutdown drained the queue, under a worker at rest, and it has been at rest ever since. |
| ForegroundIdle.StrandsIff | capslock/application/foreground.py:147-157 | The steps that make it so are a successful recall that leaves an empty queue, and shutdown draining a queue, under a worker at rest. |
| Foreground.OverlapLeavesIdleBusy | capslock/application/foreground.py:126-130 | A run in which an enqueue passes the shutdown test while a recall holds the lock, and is accepted after shutdown took it and the worker left: shutdown ends idle over a request nobody will serve. |
| Foreground.RecallLeavesBusy | capslock/application/foreground.py:141-157 | A run in which recalling the last request leaves the controller busy with nothing to do. |
| ForegroundOrder.AcceptPlaces | capslock/application/foreground.py:131-138 | A request with a new id stands at its index, clamped to the queue, with everything queued in its order around it, and the controller is busy; one with a known id changes nothing. |
| ForegroundOrder.RecalledComesBack | capslock/application/foreground.py:165-174 | A recalled request that is submitted again at its index stands where it stood, before whatever was queued meanwhile. |
| ForegroundOrder.ServedInOrder | capslock/application/foreground.py:118-292 | Over every run, with indices, recalls and shutdown: of two requests in the queue the later one is only started after the earlier one was started, recalled, cancelled or drained. |
| ForegroundOrder.AcceptedInTurn | capslock/application/foreground.py:131-138 | Over every run: a request accepted at an index starts before everything then queued from that index on and after everything before it, unless what should come first is recalled, cancelled or drained. |
| ForegroundController.ForegroundRunController.constructor | capslock/application/foreground.py:86-105 | The new controller is the initial state of the machine. |
| ForegroundController.ForegroundRunController.HasItem | capslock/application/foreground.py:196-199 | True exactly for the active item and the queued ones. |
| ForegroundController.ForegroundRunController.EnqueueItem | capslock/application/foreground.py:126-129 | Up to the lock: refused exactly when shutdown was requested, otherwise the call waits to enter. |
| ForegroundController.ForegroundRunController.AcceptItem | capslock/application/foreground.py:130-138 | Under the lock: a known id changes nothing, another one is queued at its index, clamped at both ends. |
| ForegroundController.ForegroundRunController.RecallLatest | capslock/application/foreground.py:144-150 | The newest request leaves the queue and the lock stays taken while the session is asked; an empty queue answers none. |
| ForegroundController.ForegroundRunController.RecallAnswered | capslock/application/foreground.py:149-154 | A recall that fails puts the request back at the end of the queue. |
| ForegroundController.ForegroundRunController.CancelQueued | capslock/application/foreground.py:208-214 | A queued item is found by its id, and the lock stays taken while the session is asked. |
| ForegroundController.ForegroundRunController.CancelAnswered | capslock/application/foreground.py:214-219 | Only that request leaves the queue, and idle is set if it was the last thing to do; a failed cancellation changes nothing. |
| ForegroundController.ForegroundRunController.RequestShutdown | capslock/application/foreground.py:230-234 | The queue is drained and further enqueues are refused. |
| ForegroundController.ForegroundRunController.FinishShutdown | capslock/application/foreground.py:239-242 | Once the worker has gone, idle is set. |
| ForegroundController.ForegroundRunController.TakeNext | capslock/application/foreground.py:248-255 | The worker takes the oldest request and makes it active, or leaves its loop when the queue is empty after a shutdown request. |
| ForegroundController.ForegroundRunController.SettleRun | capslock/application/foreground.py:283-288 | However the run ended, the active slot is freed and FINISHED is reported for its request. |
| ForegroundController.ForegroundRunController.ClearRun | capslock/application/foreground.py:289-292 | Idle is set exactly when nothing is queued; a worker that dies leaves its loop. |
| Wakeup.AlwaysSound | capslock/collaboration/wakeup.py:32-125 | In every reachable state the actionable revision is at most the revision, the registered mailboxes exist, and a sleeping reader has missed nothing. |
| Wakeup.MailboxesGrow | capslock/collaboration/wakeup.py:39-77 | Revisions only grow, a closed mailbox stays closed and as it is, and generations are never reused. |
| Wakeup.RegistrationsAdvance | capslock/collaboration/wakeup.py:39-45 | The generation registered under a key only moves forward. |
| Wakeup.DeliveredIsSeen | capslock/collaboration/wakeup.py:66-111 | A notification delivered to the snapshotted mailbox or a later one of the key makes every later wait on the snapshot answer at once, whatever other readers, timeouts and registrations come in between. |
| Wakeup.NoLostWakeup | capslock/collaboration/wakeup.py:62-111 | No lost wakeup for any mailbox of the key, given only that unregistering closes and removes a mailbox without a suspension in between, as the code does. |
| Wakeup.AnswersIff | capslock/collaboration/wakeup.py:62-111 | At any time after a snapshot, a wait on it answers at once if and only if the snapshotted mailbox was closed, or got a notification the wait is for, at or after the snapshot: nothing is lost, and nothing else ends a wait. |
| Wakeup.UnregisteredIsClosed | capslock/collaboration/wakeup.py:62-64 | Closing and removing in one stretch means that no open mailbox is ever removed. |
| Wakeup.DeliveryWakes | capslock/collaboration/wakeup.py:73-77 | A delivered notification wakes each reader asleep on the mailbox, which then finds the change and leaves. |
| Wakeup.CloseMeansNothingMissed | capslock/collaboration/wakeup.py:51-60 | A conditional close that succeeds on the snapshotted mailbox means that nothing was delivered to it since the snapshot and nothing ever will be. |
| Wakeup.ConditionalCloseIff | capslock/collaboration/wakeup.py:51-60 | Over every run: after a close that expects the revision of a snapshot the mailbox is closed if and only if it was closed before or no notification was delivered to it since the snapshot, actionable or not. |
| Wakeup.CloseAlways | capslock/collaboration/wakeup.py:51-60 | A close without an expected revision always closes. |
| Wakeup.NotifyCounts | capslock/collaboration/wakeup.py:66-77 | A delivered notification counts once in the revision, and once in the actionable revision if it is actionable; a closed mailbox counts nothing. |
| Wakeup.RegistrationKept | capslock/collaboration/wakeup.py:39-45 | A key keeps its open mailbox until that is closed or the key is dropped, however often it is registered. |
| Wakeup.RegisteredAnew | capslock/collaboration/wakeup.py:39-45 | Registering a key without an open mailbox gives it a new one, open and without notifications, under a generation no mailbox had. |
| Wakeup.ClosedUntilRegistered | capslock/collaboration/wakeup.py:39-77 | Once the key has no open mailbox, no notification of it is delivered before the key is registered again. |
| Wakeup.CloseOnLaterMailbox | capslock/collaboration/wakeup.py:56-57 | The condition compares revisions only: on a mailbox registered since the snapshot, a close that succeeds has overlooked a delivered notification if and only if the expected revision is not zero. |
| WakeupRegistry.MailboxWakeupRegistry.constructor | capslock/collaboration/wakeup.py:35-37 | The new registry is the initial state of the protocol. |
| WakeupRegistry.MailboxWakeupRegistry.Register | capslock/collaboration/wakeup.py:39-45 | An open mailbox is kept; otherwise the key gets a mailbox of the next generation. The answer is its snapshot. |
| WakeupRegistry.MailboxWakeupRegistry.Notify | capslock/collaboration/wakeup.py:66-77 | Under the lock of a mailbox found before: delivered exactly when it is still open, and then everyone asleep on it is woken. |
| WakeupRegistry.MailboxWakeupRegistry.Close | capslock/collaboration/wakeup.py:51-60 | Under the lock: refused exactly when the revision is not the expected one. |
| WakeupRegistry.MailboxWakeupRegistry.Drop | capslock/collaboration/wakeup.py:62-64 | Whatever mailbox is registered under the key goes, closed or not. |
| WakeupRegistry.MailboxWakeupRegistry.Unregister | capslock/collaboration/wakeup.py:62-64 | The mailbox registered under the key is closed and removed in one stretch: a close step, if there is one, and directly after it the removal. |
| WakeupRegistry.MailboxWakeupRegistry.WaitSince | capslock/collaboration/wakeup.py:79-111 | The reader sleeps exactly when nothing changed and it may wait; an answer is a snapshot of the mailbox, and a wait changes no mailbox. |
| ChildRun.ChildTask.RunOne | capslock/collaboration/service.py:1379-1543 | For every outcome of runner, verifier and publisher: when the run settles, task, attempt and recorded output agree, completion means verified and published, a shared workspace publishes nothing, and waiting for approval has a suspended attempt and no output. It raises exactly when it cannot start or when an output that it has to record is there already, and then the task has ended under a running attempt. |
| ChildRun.ChildTask.ContinueApproved | capslock/collaboration/service.py:1297-1377 | The same after an approval, except that an error of the runner itself is not caught and leaves task and attempt running. |
| ChildRun.ChildTask.Conclude | capslock/collaboration/service.py:1468-1508 | From a verified output the run ends completed exactly when publishing succeeds, or was not wanted in a shared workspace, and failed otherwise. |
| ChildRun.ChildTask.Publish | capslock/collaboration/service.py:1468-1482 | A shared workspace never publishes and accepts an output without artifacts only. |
| ChildRun.ChildTask.RecordCancelled | capslock/collaboration/service.py:1545-1586 | A cancelled run leaves task and attempt cancelled, and the output too, unless one was recorded before, which is kept. |
| ChildRun.ChildTask.SetState | capslock/storage/repositories/collaboration.py:209-293 | The state changes exactly along the allowed transitions, listed by the states each one can be reached from. |
| ChildRun.FinalForever | capslock/storage/repositories/collaboration.py:209-293 | Over every sequence of state changes a task that has completed, failed, or was cancelled or interrupted stays so. |
| ChildRun.RanFirst | capslock/storage/repositories/collaboration.py:209-293 | A task completes or waits for an approval only after it was running. |
| ChildRun.ChildTask.RecordOutput | capslock/storage/repositories/collaboration.py:323-342 | The first output of a task stays; a second one raises. |
| ChildRun.ChildTask.Claim | capslock/storage/repositories/collaboration.py:915-1002 | Only a created, ready or interrupted task can be claimed; it gets a new attempt. |
| ChildRun.ChildTask.StartAttempt | capslock/storage/repositories/collaboration.py:1004-1030 | Only a new attempt can start, and its task runs with it. |
| ChildRun.ChildTask.FinishAttempt | capslock/storage/repositories/collaboration.py:1032-1082 | An attempt that has not ended takes its task along; an ended one is left alone. |
| ChildRun.ChildTask.ResumeAttempt | capslock/storage/repositories/collaboration.py:1137-1156 | Only a suspended attempt resumes, and a waiting task with it. |
| Scheduling.ScheduleTeam | capslock/collaboration/service.py:347-373 | The tasks are dealt with in their order, each takes the first worker that is still free and accepts it, and a task is left over only when every worker that would have accepted it went to an earlier one. |
| Scheduling.RoundMeans | capslock/collaboration/service.py:354-373 | After the round every pair was accepted, is of a queued task and an idle worker, and respects the pin of the task; nothing is used twice; and no queued task and idle worker are left over that fit each other. |
| Scheduling.Maximal | capslock/collaboration/service.py:354-373 | The round is maximal for the assignment oracle: no proper assignment of the queued tasks to the idle workers extends it. |
| Admission.LiveWorkersBounded | capslock/collaboration/service.py:151-160 | Over every run in which workers are stopped at rest, the live workers of a team never exceed max_children. |
| Admission.LiveBalance | capslock/storage/repositories/collaboration.py:1083-1099 | The exact change of the number of live workers of every team on every step: one for each admission, one less for a stop and for the end of a one-task worker, one more for a worker brought back after it was stopped, and none otherwise. |
| Admission.EndOfAttempt | capslock/storage/repositories/collaboration.py:1061-1099 | Over every run: the end of any attempt stops its worker if a delegation made the worker, and makes it idle if it was started by itself, whatever happened since. |
| Admission.StatesTell | capslock/storage/repositories/collaboration.py:934-1099 | Over every run in which a worker has one attempt at a time: it is starting, running or waiting exactly when an attempt is open on it that is new, under way or suspended. |
| Admission.RevivedIff | capslock/storage/repositories/collaboration.py:1083-1099 | What an attempt does to its worker makes one more worker live if and only if the worker had been stopped under that attempt. |
| Admission.StoppedUnderATask | capslock/collaboration/service.py:1118-1139 | A run that exceeds max_children: of two active tasks of a worker only the older is cancelled when the worker is stopped, and the end of the other one brings it back. |
| Admission.ConcurrencyBounded | capslock/collaboration/service.py:217-221 | Over every run the attempts that a child run is working on have a permit each, so that they never exceed max_concurrency. The rows that say running are those and the resumed or abandoned ones, and exceed the limit if and only if the latter are more than the former leave room for. |
| Admission.RowsExceedIff | capslock/collaboration/service.py:1294-1298 | A step takes the running rows beyond the limit if and only if it starts or resumes an attempt when there are as many as the limit allows. |
| Admission.ApprovalsExceedRows | capslock/collaboration/service.py:1294-1298 | A run in which two approvals are decided before either continuation has a permit, and both rows say running under a limit of one. |
| Admission.CollaborationService.StartAgent | capslock/collaboration/service.py:876-887 | A persistent worker is admitted exactly when the team has fewer than max_children live ones. |
| Admission.CollaborationService.Delegate | capslock/collaboration/service.py:151-214 | All contracts are admitted or refused together; a failure on the way, after any number of workers or all of them, leaves the workers made before it. |
| Admission.CollaborationService.Acquire | capslock/collaboration/service.py:217-221 | A run gets a permit exactly when one is free. |
| Admission.CollaborationService.Release | capslock/collaboration/service.py:217-221 | The permit comes back however the run ended; an attempt it was still working on is abandoned. |
| Admission.CollaborationService.StartAttempt | capslock/storage/repositories/collaboration.py:1004-1030 | Only a new attempt starts, and its worker runs. |
| Admission.CollaborationService.ResumeAttempt | capslock/storage/repositories/collaboration.py:1137-1162 | Only a suspended attempt resumes, without a permit. |
| Admission.CollaborationService.CountLive | capslock/collaboration/service.py:151-155 | The count is the number of workers of the team that are not stopped. |
| Admission.CollaborationService.Claim | capslock/storage/repositories/collaboration.py:934-985 | Only a worker that is not stopped can claim. |
| Admission.CollaborationService.FinishAttempt | capslock/storage/repositories/collaboration.py:1061-1099 | The end of an attempt makes a persistent worker idle and stops a one-task worker; an ended attempt changes nothing. |
| Admission.CollaborationService.StopWorker | capslock/storage/repositories/collaboration.py:699-706 | A worker is stopped whatever is open on it; a stopped one raises. |
| ReceiverScope.RunIds | capslock/collaboration/service.py:521-533 | The scope is the run and exactly the runs its chain of parents reaches inside the session, each once and in the order of the chain, up to a run outside the session or listed already; the walk ends even on a cyclic chain. |
| Instructions.Load | capslock/instructions.py:42-87 | One record per candidate, loaded exactly if it was accepted and selected, and one block of text per selected file in ascending priority. |
| Instructions.Select | capslock/instructions.py:54-62 | The loop over the files in descending priority selects what the greedy choice pays for. |
| Instructions.GreedyIsGreatest | capslock/instructions.py:57-62 | The greedy choice is the lexicographically greatest one within the budget. |
| Instructions.GreedyFits | capslock/instructions.py:60-62 | The greedy choice stays within the budget. |
| Instructions.LoadedIsGreatest | capslock/instructions.py:54-62 | For distinct paths the files loaded fit 12000 tokens and are the lexicographically greatest choice that does, highest priority first. |
| Instructions.LoadWithinBudget | capslock/instructions.py:63-73 | The token counts of the records marked as loaded add up to at most 12000. |
| Instructions.TopIsLoaded | capslock/instructions.py:143-157 | The accepted file of highest priority is always loaded, because 40 KiB never cost more than the budget. |
| Instructions.TextIsExact | capslock/instructions.py:74-79 | The text lists exactly the selected files, each with its own content. |
| Instructions.SortedIsStable | capslock/instructions.py:57-59 | Sorting by priority, descending too, keeps files of one priority in their order. |
| Instructions.Read | capslock/instructions.py:124-158 | A file is accepted together with a loaded record or not at all, and costs between 1 token and the whole budget. |
| Instructions.ReadIff | capslock/instructions.py:124-158 | A file is accepted, with all of its text, exactly if it is a UTF-8 text of at most 40960 bytes without an include directive; it costs a token for every four characters begun. The diagnosis of every other file says which of the tests it failed. |
| Instructions.LoadedIff | capslock/instructions.py:42-73 | A record says loaded exactly if its file was accepted and its path selected; it says over budget exactly if the file was accepted and not selected, and otherwise keeps its diagnosis. |
| Instructions.BlocksAscend | capslock/instructions.py:74-79 | The text lists the files in ascending priority: each block is that of an accepted file, whose priority is at least that of the file of every earlier block. |
| MarkupSafeJson.EscapeRoundTrip | capslock/planning.py:222-237 | For every JSON value the printed and escaped text has no `&`, `<` or `>` and is read back by RFC 8259 as the same value. |
| ShortestJson.ShownIsShortest | capslock/planning.py:222-237 | No compact text without `&`, `<` and `>` that reads back as the value is shorter than the one shown: nothing is escaped that need not be, and nothing is escaped at greater length than needed. |
| MarkupSafeJson.EscapedIsSafe | capslock/planning.py:235-237 | Replacing the three characters one after the other is replacing them all at once: no replacement feeds the next. |
| MarkupSafeJson.EscapedIsMarkupFree | capslock/planning.py:235-237 | No text has one of the three characters left once it is escaped. |
| MarkupSafeJson.ValueBack | capslock/planning.py:222-237 | A printed and escaped value is read back in any surrounding text that does not continue a number. |
| MarkupSafeJson.CharBack | capslock/planning.py:232-237 | One character of a string, quoted and then escaped, reads back as itself, whatever follows. |
| MarkupSafeJson.OrderIrrelevant | capslock/collaboration/runner.py:683-689 | The other order of the replacements gives the same text. |

## Left out

- StrictProvider.MergeAccepts: is about a protocol and a task schema without combinators, `enum` and `const` at their top level; the merge takes over the properties and the required names of the task schema and nothing else of it.
- StrictProvider.MergeSucceedsIff: models `child_agent_result_schema` on values; that the merged schema shares documents with the task schema is not captured. Required names are a set here and an ordered list in the documents that the code compares, so that a redeclared field whose strict form differs in that order only conflicts there and agrees here.
- StrictSchema.StrictSound: is about coherent schemas; `StrictLimits` shows what goes wrong outside them, and how far soundness still reaches.
- StrictLimits.UnstrippedSound: for several variants or a `oneOf` it is a sufficient condition only; the exact one is proved for a single variant and for the elements of a list.
- Boolean subschemas, `description`, `format`, and the error messages of the schema check; a `pattern` is the set of strings it matches.
- Publishing.AgentWorkspaceManager.PublishArtifacts: foreign writers act just before each replacement, the failing one included, and not between the steps of the rollback; `RollbackArtifacts` starts from any state they may have left.
- Publishing.AgentWorkspaceManager.Create: its copies deliver what was read, because nothing in the code would notice otherwise; the limits on files and bytes are an operation that raises, and so is a directory that goes.
- Directories, their removal after a failure, symlinks, file modes, worktrees, restored baselines, and locks between processes.
- GaussianProcess.PosteriorIsExact: assumes a positive semidefinite kernel; that the Gaussian kernel is one needs more about the exponential than the model has.
- IEEE rounding, the bootstrap interval, random sampling, and the ranking of the sampled points.
- Foreground.Conservation: a consumer that raises while FINISHED is reported is not modelled; every end of the active run, cancelled or not, is one step.
- Foreground.NothingToDoMeansIdle: leaves out recall and shutdown; `BusyAtRestIff` has the exact condition for runs with both, up to the end of shutdown.
- The single-consumer `wait` of the registry appears only as a step that moves the consumed revision.
- ChildRun.ChildTask.ContinueApproved: leaves out a cancellation of the continuation, for which the code has no branch.
- ChildRun.ChildTask.RunOne: leaves out cancellation outside the guarded call of the runner, a publisher that raises anything but an operating system or value error, and a process that stops between two records.
- The budget ledger, audit messages, retained workspaces, task dependencies, and memory proposals.
- Scheduling.ScheduleTeam: whether a pair is accepted does not change during the round.
- Admission.ConcurrencyBounded: the end of an attempt may come from its run or from a cancellation outside; the model does not say which.
- Admission.LiveWorkersBounded: assumes that workers are stopped at rest; stopping a worker with two active tasks breaks the limit, as `StoppedUnderATask` shows.
- Admission.CollaborationService.Delegate: models the admission test and the creation of the workers, not the other checks of the arguments.
- Instructions.LoadedIsGreatest: is about distinct paths, since the selection is a set of paths; discovery of the candidates and the matching of path rules are left out.
- MarkupSafeJson.EscapeRoundTrip: is about compact text, and a number is its text; the schema inside a prompt (capslock/structured_output.py:93-97) leaves `&` alone.
- User interface, provider clients, the session and run engine, tools and permissions.
