# s390x wheel refinery: a verified model

The repository builds Python wheels for the s390x architecture. A control plane keeps a queue of builds in
Postgres; workers lease rows of it, build them in containers, and report back; a planner turns
requirements and wheels into a flat plan and a DAG of runtime, pack, wheel and repair nodes; a web view draws
that DAG; a Python tool plans and repairs builds on its own. This project models those parts that decide
something and proves what they promise.

| file | models |
|---|---|
| `text.dfy`, `sorting.dfy`, `digraph.dfy`, `artifact.dfy` | trimming, folding, string order, reachability, artifact identifiers |
| `build_store.dfy` | the `build_status` table and the store steps that change it (class `Store`) |
| `recipes.dfy`, `backoff.dfy` | recipe merging and automatic fixes; the retry delay in 64-bit arithmetic |
| `lease_protocol.dfy`, `lease_chain.dfy`, `lease_runs.dfy`, `lease_bound.dfy` | the queue together with its workers, as a state machine with late, reordered and lost reports |
| `keys.dfy`, `catalog.dfy` | artifact keys and digests; which packs a package needs |
| `plan_spec.dfy`, `planner.dfy` | the planner, as functions on its state and as the object that runs (class `Planner`) |
| `plan_props.dfy`, `plan_results.dfy`, `plan_requests.dfy`, `plan_order.dfy` | what holds of every plan |
| `plan_values.dfy`, `plan_entries.dfy`, `plan_nodes.dfy` | what each entry and node of a plan says, from the inputs |
| `jobs.dfy`, `matcher.dfy`, `pack_order.dfy`, `pack_priority.dfy` | how a worker turns leases into jobs, finds their wheels and orders their packs |
| `dag_view.dfy`, `dag_layout.dfy`, `dag_focus.dfy` | layering, layout and focus set of the plan view |
| `log_stream.dfy`, `hints.dfy`, `py_resolver.dfy` | the log splitter, the hint printer and parser, the Python resolver |

How the models are set up:

- **Queue.** Each SQL statement is one atomic step at one nondecreasing clock. A pop leases the oldest due rows to
  a worker, which turns each lease into jobs, possibly for other rows too, with the plan that queued the row or
  with none if it cannot fetch it. Each
  job reports on its own row, with the attempt its name and version have in the batch: once "building", once the
  end. A report in flight is delivered once, at any later time, or never: the worker ignores send errors, and its
  final report is sent on a context that may already be cancelled, so only safety is claimed. A step of the whole
  queue is shown to be, for every row, a step of that row (`StepIsCellwise`), and the row invariants carry over to
  every run.
- **Limit.** In the results on leases, the limit is MaxRequeueAttempts if requeueing or automatic fixing is on, else
  0, since then nothing is retried.
- **Planner.** Hashing is an injective function, the resolver a partial function, the artifact store a set. The
  walk over the Go map of collected names is an arbitrary order. The object `Planner.Planner` appends to its lists and
  maps as the code does and is proved equal to the functions of `PlanSpec`; the properties are proved of those.
- **Map iteration** in the depth-first search over packs, and every unstable sort, are arbitrary choices.

## Findings

- Plan keys are `name::version`. Names without `::` are not enough to keep them apart: name `a:` with version
  `b` and name `a` with version `:b` share a key, and then the order of a map walk decides which one is planned.
  What matters is that the name followed by one more colon contains no `::` ("plain" below).
- A lease of a row for version `latest`, or of a row of the same version whose name differs in case only, also takes
  on the build of other rows of that name, and reports on them with a wrong attempt and with its own recipes. With a
  limit of one attempt, x 1.0 is then leased twice, both times as attempt 1. In all runs over given rows a row stays
  within what its own enqueues and expired leases allow, and its own jobs carry on with each other's recipes, exactly
  when no other of those rows may take it on with an attempt below the limit. Its leases count attempts exactly when,
  besides, no other row shares its folded name and version if the limit is three or more: rows leased in one batch
  share the larger attempt. What holds for all runs: counting those jobs as well bounds the leases, and a row that
  is to be retried waits for the back-off of the report that said so.
- A row may be leased once more for every expired lease, even when the limit is one attempt, and then two
  workers build it at once.
- The back-off is right exactly up to attempt 31 and at attempts 33, 34, 36, 38, 40 to 45, 47, 53 and 54; at the
  others below 56 it is negative, and from 56 on zero.
- The re-sort of packs by priority puts packs outside its table, `cpython` among them, before what they need.
- Log chunks do not depend on the writes exactly when each terminated line is shorter than 32 KiB, or exactly
  that long and not blank, and the remainder is at most 32 KiB.
- A collected name is planned at the version an eager resolver has even if a constraint says otherwise, although
  line 87 of the repository's own README says that constraints are honoured. Since the names of requirements are
  collected as well, a pinned requirement is then planned in two versions, although docs/go-resolver.md:12 says that
  pins of top-level inputs are still used. A constraint is honoured exactly when no eager resolver has another version.
- A cycle through the focus node may hide a descendant from the focus set. It hides none exactly when every node
  outside the ancestors that needs an ancestor on such a cycle can be reached from the focus outside its ancestors.
- A `===` pin whose text is not how its version prints is planned, but the requirement is neither met nor
  listed as missing. When `===1.0.0` is required after 1.0 was planned, a job for 1.0.0 is added, but the version
  sets keep 1.0, which is the same version to them, so the code's own test does not see the requirement satisfied.

## Model

| member | source | states |
|---|---|---|
| BuildStore.Store.QueueBuildsFromPlan | go-control-plane/internal/store/postgres.go:1665-1706 | build entries with name and version become pending rows with no attempts and no back-off, other entries and rows stay; the time-stamp invariant holds afterwards |
| BuildStore.Store.LeaseBuilds | go-control-plane/internal/store/postgres.go:1708-1769 | exactly the oldest due rows, at most the limit and each once, are leased with one attempt more and the time of the pop as lease time, without start or end, whatever stamps they had; recipes, back-off and creation time stay; the reply copies those rows; no other row changes |
| BuildStore.Store.UpdateBuildStatus | go-control-plane/internal/store/postgres.go:667-740 | what a report does to its row, status by status: first lease and start times stay, final reports stamp the end, waiting clears all stamps, recipes are never lost; no other row changes, and stamps fit the status for any report at any time |
| BuildStore.Store.RequeueStaleLeases | go-control-plane/internal/store/postgres.go:1771-1800 | exactly the leased rows older than the age become pending without stamps, with their attempts and recipes; all others stay; the result is the number of rows that changed |
| BuildStore.Store.DeleteBuilds | go-control-plane/internal/store/postgres.go:646-665 | exactly the rows of another status stay, unchanged, or none without a filter; the result is how many went |
| BuildStore.Store.BuildQueuePop | go-control-plane/internal/api/handlers.go:1224-1266 | with a timeout, stale leases go back first and may be leased again by the same pop; then the oldest due rows are leased as above |
| BuildStore.EnqueuedExactly | go-control-plane/internal/store/postgres.go:1665-1706 | exactly the rows a plan queues become pending with no attempts and no back-off and keep their stamps, however often the plan names them; the last entry that names recipes for a row replaces its recipes, else they stay; all other rows are untouched |
| BuildStore.PickOldest | go-control-plane/internal/store/postgres.go:1721-1739 | distinct due rows, as many as the limit allows, none younger than a due row left out |
| BuildStore.EnqueueKeepsStamps | go-control-plane/internal/store/postgres.go:1675-1689 | enqueuing any plan keeps the stamps of all rows consistent |
| BuildStore.LeaseKeepsStamps | go-control-plane/internal/store/postgres.go:1731-1737 | leasing any set of rows keeps them consistent |
| BuildStore.LeaseLastsItsAge | go-control-plane/internal/store/postgres.go:1785-1792 | a row just leased is not overdue before its age has passed since that lease |
| Recipes.MergeRecipes | go-worker/internal/service/worker.go:599-617 | the loop with its set of folded names computes the merge function below |
| Recipes.MergeKeepsClean | go-worker/internal/service/worker.go:599-617 | merging onto a merged list extends it and never rewrites it; the result is trimmed and distinct ignoring case |
| Recipes.MergeIntoExtends | go-worker/internal/service/worker.go:599-617 | nothing on offer is missing afterwards, and the list grows exactly when something new is on offer |
| Recipes.MergeIdempotent | go-worker/internal/service/worker.go:599-617 | merging the same list again changes nothing |
| Recipes.MergeOnlyOffers | go-worker/internal/service/worker.go:599-617 | whatever a merge adds is one of the offered recipes, trimmed |
| Recipes.AutoFix | go-worker/internal/service/auto_fix.go:46-139 | a fix is applied exactly when it is enabled and a trusted hint offers a recipe the job lacks; then the recipes strictly extend the job's and lack nothing offered; no recipe comes from elsewhere; matched and blocked hints are exactly those at or above, and below, the threshold, sorted and without repetitions |
| Recipes.DedupedIs | go-worker/internal/service/auto_fix.go:204-223 | such a list is sorted, trimmed, without blanks, misses nothing and adds nothing |
| Backoff.DelayIsScheduleIff | go-worker/internal/service/worker.go:958-972 | for every attempt: the 64-bit delay is min(5 * 2^(attempt-1), 600) seconds exactly up to attempt 31 and at the thirteen later attempts listed above |
| Backoff.OnScheduleUpTo31 | go-worker/internal/service/worker.go:959-972 | it is right for every attempt up to 31 and negative at attempt 32 |
| Backoff.NoDelayFrom56 | go-worker/internal/service/worker.go:959-972 | from attempt 56 on the delay is zero |
| Backoff.ScheduleMonotone | go-worker/internal/service/worker.go:959-972 | the documented delay never falls with the attempt and stays between 5 and 600 seconds |
| Backoff.ScheduleIs | go-worker/internal/service/worker.go:959-972 | the documented delay in seconds: 5, 10, 20, 40, 80, 160, 320, then 600 |
| Backoff.BackoffWindow | go-worker/internal/service/worker.go:959-972 | at every attempt for which the delay is right the returned second lies between the current second plus the delay and one second more |
| LeaseProtocol.FinalReportIs | go-worker/internal/service/worker.go:214-273 | from the job, its outcome and the configuration: built if and only if the job succeeded; retry if and only if it broke, its attempt is below the limit, and requeueing is on or a fix was found; else failed; the job's attempt, a retry time on schedule or none, and the job's recipes with the fix if there is one |
| LeaseProtocol.StartReportIs | go-worker/internal/service/worker.go:174 | the first report says building, with the job's attempt and recipes |
| LeaseProtocol.ReportedRecipes | go-worker/internal/service/worker.go:214-256 | the reported recipes are longer than the job's exactly when a fix was applied |
| LeaseProtocol.CreditKept | go-control-plane/internal/store/postgres.go:1708-1769 | no step creates leases from nothing: leases granted plus leases still possible never exceed the budget from enqueues, expiries and jobs of other rows' leases |
| LeaseProtocol.BaseKept | go-control-plane/internal/store/postgres.go:667-740 | every step of a row, late reports included, keeps stamps, attempts, reports and budget consistent |
| LeaseChain.ChainKept | go-control-plane/internal/store/postgres.go:714-720 | for a row enqueued once and never expired, whose jobs from other rows' leases start past the limit, each step keeps the chain: every lease follows from a retried own job, one attempt more, after its back-off, with growing recipes |
| LeaseChain.StaysExplained | go-control-plane/internal/store/postgres.go:667-740 | in every step of every row: one that is built, failed or to be retried has the status, attempts and back-off of a final report that was applied |
| LeaseChain.StaysLeasedSince | go-control-plane/internal/store/postgres.go:1731-1737 | in every step of every row a leased one has the time of its last lease |
| LeaseBound.ExpiryLeasesTwice | go-control-plane/internal/store/postgres.go:1771-1800 | a run of the queue with one enqueue and one expired lease in which a row has two leases and two unreported jobs, whatever the limit |
| LeaseRuns.StepIsCellwise | go-control-plane/internal/store/postgres.go:1721-1739 | a step of the whole queue is, for every row, a step of that row: its lease, at most one own job with the row's recipes, and the jobs other leases of the batch bring |
| LeaseRuns.StampsAlwaysFit | go-control-plane/internal/store/postgres.go:676-737 | in every reachable state stamps fit the status, and leased is not after started, nor started after finished, nor any after now |
| LeaseRuns.RetryRowsHaveAttemptsLeft | go-worker/internal/service/worker.go:243-256 | in every reachable state a retry row has fewer attempts than the limit |
| LeaseRuns.EndsAreEarned | go-worker/internal/service/worker.go:214-273 | in every run a row is built only by the applied report of a job that succeeded, and failed or to be retried only by that of one that broke |
| LeaseRuns.LeasesLastTheirAge | go-control-plane/internal/store/postgres.go:1785-1792 | in every run a lease is taken back only after its age has passed since that lease |
| LeaseRuns.LeasesAreBounded | go-worker/internal/service/worker.go:849-859 | in every run a row has at most max(1, limit) leases per enqueue, max(1, limit - 1) per expired lease, and max(0, limit - a) per job that another row's lease took on for it as attempt a |
| LeaseRuns.TameLeasesAreBounded | go-worker/internal/service/worker.go:849-859 | the first two alone, if no job of another row's lease is taken on for it below the limit |
| LeaseRuns.UndisturbedLeasesAreBounded | go-worker/internal/service/worker.go:849-859 | so it is if no row that may take it on with an attempt below the limit is ever in the table |
| LeaseBound.BoundHoldsIff | go-worker/internal/service/worker.go:504-555 | over all runs on given rows that bound holds for a row if and only if none of the others may take it on with an attempt below the limit |
| LeaseBound.BoundBroken | go-worker/internal/service/worker.go:504-555 | otherwise some run, with one enqueue and no expiry and plans that hold the rows they are fetched for, leases the row once more than the bound; the last lease counts attempts anew and its job drops the first one's recipes |
| LeaseBound.LatestLeasesTwice | go-worker/internal/service/worker.go:514-524 | x 1.0 and x latest queued, limit one: x 1.0 is leased twice, the second time again as attempt 1 |
| LeaseBound.BoundIsReached | go-worker/internal/service/worker.go:849-859 | for every limit there is a run of the queue in which a row, enqueued once and never expired, is leased exactly max(1, limit) times |
| LeaseRuns.AttemptsCountLeases | go-worker/internal/service/worker.go:129-135 | without expiry or re-enqueue, no job of another row's lease below the limit, and no attempt lent: lease j and its job carry attempt j, there are at most max(1, limit), and all but the last ended in an applied retry report |
| LeaseBound.AttemptsHoldIff | go-worker/internal/service/worker.go:129-135 | over all runs on given rows the leases of a row enqueued once and never expired count attempts up to the limit if and only if none of the others may take it on below the limit and, for a limit of three or more, none shares its folded name and version |
| LeaseBound.SharedAttempts | go-worker/internal/service/worker.go:129-135 | a run in which two such rows are leased in one batch and the second lease of one carries attempt 3 |
| LeaseRuns.RecipesFormAChain | go-worker/internal/service/worker.go:534 | without expiry or re-enqueue and with no job of another row's lease below the limit, the recipes of a row's own jobs form a chain under prefix, strictly longer after an applied fix |
| LeaseBound.RecipesHoldIff | go-worker/internal/service/worker.go:534 | over all runs on given rows that chain holds if and only if none of the others may take the row on below the limit |
| LeaseRuns.RetryRowsWait | go-control-plane/internal/store/postgres.go:1725-1726 | in every run, whatever came before: a pop that leases a row that is to be retried comes no earlier than the documented delay after the decision of the job it waits for, at every attempt for which the delay is right |
| LeaseRuns.RetriesWait | go-control-plane/internal/store/postgres.go:1725-1726 | in particular, under the guard of the recipe chain, the lease after own job j waits for that job's retry |
| LeaseRuns.AloneIsTameAndExact | go-worker/internal/service/worker.go:504-555 | no job below the limit is taken on by, and no attempt lent from, another row in a run in which no other row has the row's folded name with its folded version or version "latest" |
| Jobs.ReqAttempts | go-worker/internal/service/worker.go:129-135 | the attempt table of a pop gives each folded name and version its attempt, 0 if the batch does not hold it |
| Jobs.AttemptIsLargest | go-worker/internal/service/worker.go:129-135 | that attempt is never negative, at least that of every such lease of the batch, and if positive that of one of them |
| Jobs.QueueKeyIff | go-worker/internal/service/worker.go:845-847 | for names without a colon two rows share an attempt exactly when they differ at most in case |
| Keys.WheelDigestIff | go-worker/internal/artifact/key.go:71-89 | two wheel keys have equal digests exactly when they agree up to the order of their packs |
| Sorting.LeqIff | go-worker/internal/artifact/key.go:74-76 | strings are compared lexicographically: a prefix first, else by the first character that differs |
| Sorting.SortStringsCanonical | go-worker/internal/artifact/key.go:74-76 | sorting strings gives equal lists exactly for equal multisets |
| Catalog.Select | go-worker/internal/pack/catalog.go:30-54 | the packs that matching rules name, each once, at its first mention |
| Catalog.MentionedExactly | go-worker/internal/pack/catalog.go:36-52 | a pack is selected exactly when it is in the catalog and a matching rule names it |
| Catalog.DependenciesRankLower | go-worker/internal/plan/plan.go:971-987 | pack dependencies have a smaller rank, so following them ends |
| Catalog.DependenciesAreTheTable | go-worker/internal/plan/plan.go:971-987 | the dependencies of a pack are those of the declared table, ignoring case |
| Catalog.FirstsInOrder | go-worker/internal/pack/catalog.go:43-49 | before the place where a pack is taken, the mentions are exactly the packs taken before |
| Planner.Planner.AddPack | go-worker/internal/plan/plan.go:326-355 | the recursive closure ends for every catalog that files packs under their names and equals its specification |
| Planner.Planner.EmitNew | go-worker/internal/plan/plan.go:604-637 | one plan entry with its packs, wheel and repair nodes, unless its key is planned |
| Planner.Planner.AddRequirement | go-worker/internal/plan/plan.go:368-424 | the requirement pass for one requirement |
| Planner.Planner.CollectDeps | go-worker/internal/plan/plan.go:438-457 | the dependency names of one wheel, up to the cap |
| Planner.Planner.AddWheel | go-worker/internal/plan/plan.go:426-572 | the wheel pass for one wheel, with overrides |
| Planner.Planner.AddCollected | go-worker/internal/plan/plan.go:573-638 | the last pass for one collected name computes its specification, whose version is that of PlanValues.CollectedIff |
| Planner.Planner.Compute | go-worker/internal/plan/plan.go:268-646 | the whole computation is the specified plan for some walk of the collected names |
| PlanValues.NormalizeNameIff | go-worker/internal/plan/plan.go:762-767 | a name is normalized by trimming, dashes for underscores and lower case, and in no other way |
| PlanValues.RequiredIff | go-worker/internal/plan/plan.go:374-381 | a requirement keeps its trimmed version, and an open one takes the resolver's answer if there is one |
| PlanValues.CollectedIff | go-worker/internal/plan/plan.go:577-602 | the version planned for a collected name: the eager resolver first, then a constraint, then an override without its `==`, then what was collected; if that is empty the resolver, else "latest" |
| PlanValues.ReadCollects | go-worker/internal/plan/plan.go:368-457 | what is collected, unless the cap cuts it off: exactly the names that requirements and dependencies mention, each with the version of its last requirement, or if that is empty with the first version a dependency asks for or the resolver has |
| PlanEntries.EntriesAreFirstAsked | go-worker/internal/plan/plan.go:368-638 | entry i of every plan, its wheel and its repair have the version, source, tags, digests, inputs and actions of whoever asked first for its key: a requirement, else a wheel, else a collected name |
| PlanEntries.AskedHasEntry | go-worker/internal/plan/plan.go:368-638 | whatever a requirement, wheel or collected name asks for has an entry under its name and version |
| PlanEntries.EntryReusedIff | go-worker/internal/plan/plan.go:504-527 | an entry is marked as reused exactly when no requirement asks for its key and the first wheel that does has no override and tags that suit the target |
| PlanEntries.ConstraintHonoredIff | go-worker/internal/plan/plan.go:581-602 | a constraint decides the version of a collected name exactly when no eager resolver has another one |
| PlanEntries.SettledKeptIff | go-worker/internal/plan/plan.go:573-602 | a collected version without an override is kept exactly when no eager resolver and no constraint has another one |
| PlanNodes.EagerPlansPinnedTwice | go-worker/internal/plan/plan.go:573-602 | with an eager resolver that knows x 2.0 the requirement x==1.0 alone is planned as 1.0 and as 2.0 |
| PlanNodes.SelectedIff | go-worker/internal/plan/plan.go:943-969 | a package gets exactly the packs of the catalog that a rule lists which has no backend and whose pattern is empty or occurs in its name, ignoring case; they are sorted by name |
| PlanNodes.NodesAreMade | go-worker/internal/plan/plan.go:280-355 | every node of a plan is its runtime, a pack of the catalog with the packs of the dependency table as inputs, or the wheel or repair of an entry; identifiers are the digests of the keys, and actions say whether the store has them |
| PlanNodes.PlansHaveNoIdlePacks | go-worker/internal/plan/plan.go:326-360 | every pack of a plan is an input of a later node |
| PlanProps.AddPackKeeps | go-worker/internal/plan/plan.go:314-360 | adding a pack keeps the DAG closed and pack digests distinct, and adds pack nodes only |
| PlanProps.PlansAreClosed | go-worker/internal/plan/plan.go:280-423 | in every plan each input of each node is an earlier node, no pack digest occurs twice, and the only runtime comes first |
| PlanProps.PlansArePaired | go-worker/internal/plan/plan.go:383-423 | in every plan (name, version) pairs are distinct, and entry i has wheel i and repair i with its name, version, tags and inputs |
| PlanProps.PlansArePlannerMade | go-worker/internal/plan/plan.go:314-360 | pack inputs are earlier packs that the dependency table names, as the worker's ordering relies on |
| PlanResults.KeysCollideIff | go-worker/internal/plan/plan.go:504-505 | a name is not plain exactly when a shorter name shares each of its keys; `a:` with `b` and `a` with `:b` collide |
| PlanResults.KeyIsUnique | go-worker/internal/plan/plan.go:504-505 | for plain names the key determines name and version |
| PlanResults.PlanningFailsIff | go-worker/internal/plan/plan.go:573-646 | planning fails exactly without input, or when the names read before the last named dependency reach the cap; else the collected names fit the cap if any wheel has a named dependency |
| PlanNodes.EntriesReusedIffStored | go-worker/internal/plan/plan.go:512-556 | for every entry of every plan: its wheel is reused exactly when the entry is marked so or the store holds a wheel with an equivalent key, whose source is that of whoever asked first |
| PlanRequests.PlanIsFirstRequests | go-worker/internal/plan/plan.go:368-638 | the entries, wheel nodes and repair nodes of every plan are, in order, those of what the three passes ask for without the requests whose key was asked for before |
| PlanRequests.EarlierVersionsStay | go-worker/internal/plan/plan.go:438-457 | a version fixed for a name by a requirement or an earlier wheel is not changed by later wheels |
| PlanRequests.PlansCoverIff | go-worker/internal/plan/plan.go:368-638 | a plan names nothing unwanted, and every requirement, usable wheel and named dependency exactly when each has a request that is the first of its key |
| PlanRequests.PlansCoverExactly | go-worker/internal/plan/plan.go:368-638 | with plain names a plan covers exactly those names |
| PlanOrder.WalkMattersIff | go-worker/internal/plan/plan.go:573-638 | entries and DAG nodes are the same for every walk of the collected names exactly when no two of them are planned under one key that is new |
| PlanOrder.PlainNamesDoNotClash | go-worker/internal/plan/plan.go:573-605 | that is so for plain names |
| PlanOrder.WalkDoesNotMatter | go-worker/internal/plan/plan.go:573-638 | any two walks then give the same sets of entries and DAG nodes |
| PlanOrder.CollidingNamesDependOnWalk | go-worker/internal/plan/plan.go:573-605 | from one wheel that needs `a` in `:b` and `a:` in `b`, only the one walked first is planned |
| Planner.PlanTwice | go-worker/internal/plan/plan.go:268-646 | two runs on the same inputs agree, and each DAG is closed and fit for the worker's ordering |
| Matcher.FindWheelArtifact | go-worker/internal/service/worker.go:619-649 | the first wheel node that fits, with its packs and runtime; none exactly when none fits |
| Matcher.WheelMatchesIff | go-worker/internal/service/worker.go:625-640 | a wheel fits an entry when it agrees on folded name and version and has for each tag none, the entry's, or the one asked for |
| Matcher.FindInPlan | go-worker/internal/service/worker.go:619-649 | for every entry of every generated plan a wheel of its name, ignoring case, and version is found, with the plan's one runtime and packs that are earlier nodes; it is the entry's own wheel if and only if no earlier entry agrees on folded name and version |
| Jobs.Match | go-worker/internal/service/worker.go:504-555 | the jobs of a batch, in order, are those its leases want from the plan |
| Jobs.JobsMember | go-worker/internal/service/worker.go:504-555 | the jobs are exactly those of a lease and a plan entry it may take on, with the recipes of both |
| Jobs.TakesIff | go-worker/internal/service/worker.go:504-524 | a lease may take on what has a name and a version, its own name ignoring case, and its own version, or any if it asks for none or for "latest" |
| Jobs.OneJobPerLeaseIff | go-worker/internal/service/worker.go:504-555 | a leased row yields exactly its own job if and only if no other entry of its folded name has its version or meets a request for "latest" |
| Jobs.ForeignJobIff | go-worker/internal/service/worker.go:514-524 | a batch brings a job for a row from another row's lease if and only if it leases another row of that folded name, with that version or "latest", whose plan has the row |
| Jobs.LatestTakesOtherVersions | go-worker/internal/service/worker.go:514-524 | a row for "latest" also yields jobs for other versions of its name, with attempt 0 |
| PackOrder.Search.Visit | go-worker/internal/service/worker.go:1505-1523 | the depth-first search ends on every graph and keeps: finished digests closed under inputs, targets listed once, needs listed first |
| PackOrder.TopoSortFromDag | go-worker/internal/service/worker.go:1491-1528 | for every DAG, target list and iteration order each distinct target comes once, and before every pack, not on a cycle, that needs it through the inputs of the nodes, directly or not |
| PackPriority.SortPacksByPriority | go-worker/internal/service/worker.go:1447-1475 | a permutation in ascending rank, ties in any order |
| PackPriority.RankIsPlace | go-worker/internal/service/worker.go:1448-1466 | the rank of a pack is its place in the priority table, 0 outside it |
| PackPriority.ResortKeepsOrderIff | go-worker/internal/service/worker.go:1447-1475 | for a planner-made DAG the re-sort keeps every dependency first exactly when each pack that needs another one of the list is in the table |
| PackPriority.ResolveOrder | go-worker/internal/service/worker.go:1286-1295 | the order of a job's packs: each once, by rank, dependencies first exactly under that condition |
| Matcher.OutsideTableFails | go-worker/internal/service/worker.go:1447-1475 | in every plan, if an entry's packs include one outside the table and one it needs, no re-sort leaves them in order |
| Matcher.CpythonComesFirst | go-worker/internal/plan/plan.go:971-987 | with a catalog of cpython and zlib the plan of one requirement is such a plan |
| DagView.Depths.DepthFor | ui/src/App.jsx:329-346 | the memoised depth ends on every graph and is the longest path from every node that reaches no cycle |
| DagView.LongestIffGrounded | ui/src/App.jsx:329-346 | there is a longest path exactly when no cycle can be reached |
| DagView.EdgesAreFeeds | ui/src/App.jsx:270-282 | the edges the view walks are exactly: a node is among the inputs that the last node of that id has |
| DagLayout.BuildDagLayout | ui/src/App.jsx:308-398 | no layout exactly without a named node; every node has a place; boxes never overlap and lie in a canvas of exactly the size the columns need, in both orientations; an edge for exactly the inputs of each node that are nodes; columns are ordered by type; a node that reaches no cycle is on the level of its longest chain of inputs, and edges to it come from smaller levels; without cycles no level is empty |
| DagLayout.CellsApart | ui/src/App.jsx:359-397 | boxes of different cells do not overlap |
| DagLayout.CellInside | ui/src/App.jsx:385-395 | boxes of cells within the counted columns and rows lie inside the canvas |
| DagFocus.Flood | ui/src/App.jsx:279-303 | one worklist adds exactly what can be reached without entering what was active before |
| DagFocus.CollectDagFocusSet | ui/src/App.jsx:268-306 | for every graph: none exactly for an unknown focus; else the node, what it needs through the inputs of the nodes, and what a way down reaches that passes through none of these |
| DagFocus.FocusSetExactIff | ui/src/App.jsx:268-306 | with distinct ids the focus set is the node, what it needs and what needs it if and only if every node outside that has an input on a cycle with the focus is reached from below; it never holds anything else |
| DagFocus.FocusIsAncestorsAndDescendants | ui/src/App.jsx:268-306 | that is so when the focus is on no cycle |
| DagFocus.CycleHidesDescendant | ui/src/App.jsx:268-306 | a graph with a cycle through the focus where a descendant is not found |
| LogStream.LogStreamWriter.Write | go-worker/internal/service/log_stream.go:49-75 | emitted chunks and buffer are those of the run function on all writes so far; delivered chunks stay and are a part of the emitted ones in order, with strictly increasing numbers |
| LogStream.LogStreamWriter.Close | go-worker/internal/service/log_stream.go:77-91 | the remainder, blank or not, is emitted, and with it the whole output |
| LogStream.LogStreamWriter.EmitChunk | go-worker/internal/service/log_stream.go:93-110 | a chunk gets the next number and is delivered or dropped |
| LogStream.ChunksAreLines | go-worker/internal/service/log_stream.go:49-91 | for a text whose lines fit the output is its lines that are not blank and its rest, however it was written |
| LogStream.IndependentOfWritesIff | go-worker/internal/service/log_stream.go:49-91 | for every text, cut at its newlines, the output is that for all ways of writing it exactly when each line is shorter than 32 KiB, or that long and not blank, and the rest is not longer |
| LogStream.CutExists | go-worker/internal/service/log_stream.go:49-75 | every text can be cut so |
| LogStream.OutputKeepsInk | go-worker/internal/service/log_stream.go:49-91 | for every text and way of writing it the bytes that are not white space come out unchanged and in order |
| LogStream.BufferStaysSmall | go-worker/internal/service/log_stream.go:66-74 | after every write the buffer has no newline and is under 32 KiB |
| Hints.HintFromCatalog | src/s390x_wheel_refinery/builder.py:588-605 | the printer builds the specified text |
| Hints.HintTextIs | src/s390x_wheel_refinery/builder.py:588-605 | that text, for each choice of package managers, with the recipes after a bar if there are any |
| Hints.RecipeStepsFromHint | src/s390x_wheel_refinery/builder.py:625-642 | the parser computes the specified steps for every text |
| Hints.ParsePrinted | src/s390x_wheel_refinery/builder.py:588-642 | parsing a printed hint gives back exactly its dnf and apt packages, as one installation command for each manager |
| Hints.ParseParts | src/s390x_wheel_refinery/builder.py:625-642 | whatever precedes the marker and however often a manager is named after it, the commands install the packages of all its parts in order |
| PyResolver.BestCandidate | src/s390x_wheel_refinery/resolver.py:184-191 | a fitting version than which no fitting one is greater; none exactly when none fits |
| PyResolver.MissingPythonDeps | src/s390x_wheel_refinery/dependency_expander.py:9-21 | exactly the folded names required but neither present nor planned, sorted, each once |
| PyResolver.Builder.Classify | src/s390x_wheel_refinery/resolver.py:33-58 | each wheel's version goes to the reusable or the planned versions, unless one that is the same is there; a compatible wheel is reused, any other gets a job unless its name and version have one |
| PyResolver.Builder.Resolve | src/s390x_wheel_refinery/resolver.py:59-109 | fails exactly on an unsatisfied requirement whose pin does not parse; does nothing for a satisfied one; adds exactly a job for a pin that has none; without a pin lists it as missing if and only if no candidate fits or the best one has a job, and otherwise adds exactly one job, for a fitting candidate than which none is greater; one that is not missing then satisfies the version sets exactly when it is not misspelt and no other spelling of what its `===` asks for was known when it was reached |
| PyResolver.Builder.HandledKnows | src/s390x_wheel_refinery/resolver.py:59-109 | by then the version sets know every version its `===` asks for, in some spelling |
| PyResolver.Builder.HiddenStays | src/s390x_wheel_refinery/resolver.py:59-109 | later planning changes nothing about that |
| PyResolver.Builder.Expand | src/s390x_wheel_refinery/resolver.py:116-145 | with an index, a depth left and a job: "latest" jobs for the first of the names neither present nor planned, sorted, as many as the cap allows; otherwise none; no job twice |
| PyResolver.BuildPlan | src/s390x_wheel_refinery/resolver.py:19-113 | planning succeeds exactly when all wheel versions parse and every requirement whose pin does not is satisfied; then every requirement is satisfied, or its pin or best candidate has a job, or none fits and it is missing; every missing one has nothing to plan; every job is for an incompatible wheel, a pin, a best candidate, or an expansion; no two jobs agree on version and folded name |
| PyResolver.CandidatesAre | src/s390x_wheel_refinery/resolver.py:84-91 | the candidates of a requirement are the versions of the wheels of its name, in the spelling of the first, and, if an index is there and the strategy is eager or falls back to the latest, those it offers that no wheel has |
| PyResolver.PinnedIff | src/s390x_wheel_refinery/resolver.py:194-203 | a requirement is pinned exactly by a single `==` or `===` with a version |
| PyResolver.MetIff | src/s390x_wheel_refinery/resolver.py:60-109 | in a finished plan a requirement is met by a reused wheel or a job, or missing, exactly when it is not a `===` pin whose text is not how its version prints |
| PyResolver.SatisfiedIff | src/s390x_wheel_refinery/resolver.py:142-191 | so in a finished plan a requirement that is not missing satisfies the version sets exactly when it is neither misspelt nor a `===` for a version they know under another spelling |
| PyResolver.WheelsDecide | src/s390x_wheel_refinery/resolver.py:33-58 | for a version some wheel has, the input decides: the first compatible wheel, else the first incompatible one, spells it as the pin's text parses or the sets do not satisfy the pin |
| PyResolver.HiddenPinUnsatisfied | src/s390x_wheel_refinery/resolver.py:68-83 | after 1.0 is planned, `===1.0.0` gets a job but does not satisfy the version sets and is not missing |
| PyResolver.MisspeltPinUnmet | src/s390x_wheel_refinery/resolver.py:68-83 | a wheel that requires `===v1.0` gets a plan, which succeeds, where that is neither met nor missing |

## Left out

- Text.ToLower: lower-casing and trimming treat ASCII only; package names are ASCII, other text may differ.
- BuildStore.Store.LeaseBuilds: the columns last_error, failure_summary, hint_ids, the tags and the run and plan ids carry text only and are not modelled; statements are atomic, so row locks and SKIP LOCKED do not appear.
- LeaseRuns.LeasesAreBounded: reports come from workers that hold a lease; other clients of the status endpoint are covered by `BuildStore.Store.UpdateBuildStatus` alone.
- Jobs.Match: a batch whose rows come from several plans is grouped by plan, and a row whose plan cannot be fetched yields nothing; in the protocol each leased row has its own plan, which has the row or nothing, in any order.
- LeaseProtocol: liveness and exclusive building are not claimed; reports get lost, building rows are never taken back, and expired or re-enqueued rows may be leased twice.
- Recipes.AutoFix: matching hint patterns against a log, confidence scores, and the inference tables are parameters; grouping recipes by package manager beforehand (flattenRecipeMap) and replacing an inferred hint by a similar known one are not modelled.
- Planner.Planner.Compute: parsing wheel file names, requirement lines and metadata, the random run id, and attaching hints to entries are not modelled.
- PlanProps.PlansAreClosed: for catalogs that file every pack under its own name; with others the recursion need not end.
- Catalog.Matches: the fields a rule matches on are lower-cased as ASCII.
- Matcher.FindInPlan: the tags a lease carries are arbitrary.
- PackPriority.ResortKeepsOrderIff: the preparation of each pack (downloads, builds) that follows is not modelled.
- DagLayout.BuildDagLayout: ties by title within one depth and type are left in any order; node objects reach the model as id, inputs, type and title, after dagNodeId and normalizeDag.
- LogStream.LogStreamWriter.EmitChunk: whether the channel is full is an arbitrary choice; white space is that of ASCII.
- Hints.ParsePrinted: empty package names are excluded, besides white space, bars, colons, and the marker in recipes; the parser drops empty names.
- PyResolver.BuildPlan: version parsing, printing, sameness, order and specifiers are functions with the axioms `Sound` and, for pins, `PinsCompare`; an index offers a set in which no two versions are the same (`IndexFits`); expansion runs once, as the code does at its single call.
- Other parts: HTTP, JSON, SQL drivers, queues, object storage, containers, archives, settings, the scheduler's sort and the rest of the web view are input and output around the decisions modelled here.
