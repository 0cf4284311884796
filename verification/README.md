# Arrow Lake: a verified model of its hard parts

Arrow Lake is a multimodal data lake with an action layer, a SQL endpoint guarded by dataset ACLs, an annotation loop and
a document ingest. This project models the parts whose correctness spans several functions, and proves for all inputs,
all runs or all interleavings what those parts are for.

**Scenarios** (`Scenario`, `ScenarioProofs`, `ScenarioDeadlock`, `ScenarioRunner`, `ScenarioRuns`, `ScenarioResume`). A scenario is a graph
of steps with requirements and XOR gateways. `ScenarioRunner.Runner` executes it round by round as the service does:
decide gateways, cascade skips, check the deadline, compute the runnable set, dispatch it as a batch, stop on failure.
Everything outside the runner (gateway predicates, what an action answers, termination, the clock, how the concurrent
steps of a batch interleave) is a `World`, and the
results hold for every world. `Scenario` states the same rounds as a state machine; `Runner.Run` is proved to produce
exactly its histories, and all properties of runs are proved of those histories.

**Idempotency** (`Idempotency`, `ActionReplay`). The slot of one idempotency key and any number of executions that compete for it, as a
state machine with crashes, lost marks, late writes and operator resets. The right to apply the effect is a resource that
steps can spend or pass on but not duplicate.

**SQL ACLs** (`Sql`, `AclRewrite`, `AclCheck`, `AclNonInterference`, `AclAcceptance`). A qualified query language with joins, derived
tables, correlated subqueries, grouping and unions, with a denotational semantics over tables as sequences of rows.
Rewriting is proved to mean "run the original on filtered tables", and an accepted query is proved to depend on nothing
but visible columns of passing rows; which queries are accepted is characterised by what their names are bound to. Operators, aggregates, subquery forms and filter predicates are parameters.

**Sampling** (`KCenter`, `Quotas`, `Sampler`, `SamplerPools`). Farthest-first selection in any metric, largest-remainder quotas over exact
reals, and the four-pool merge.

**Agreement and recovery** (`Agreement`, `AgreementCases`, `Kappa`, `Recovery`, `RecoveryRuns`). Fleiss' kappa with its bounds, task
verdicts, and the incremental recovery of annotations into an append-only versioned layer under crashes.

**Predicates** (`Predicates`, `PredicateParser`, `PredicateProofs`, `PredicateTokens`, `PredicateEval`). The grammar, the parser with its
cursor, a renderer, and the evaluator in which missing data reads as null.

**Backfill and rate limiting** (`Backfill`, `RateLimit`). Gather/scatter of embedding vectors, the drop/re-add protocol
among concurrent jobs, and the pruned timestamp list against the full log of admissions.

Five promises turn out to need a condition; each has failing inputs next to the theorem that states the condition:
`ScenarioDeadlock.NestedGatewayDeadlocks`, `ScenarioResume.ResumeCompletesAroundTimeout`, `Idempotency.BoundIsAttained`,
`RecoveryRuns.SharedIdsLoseAnnotations`, `PredicateEval.NegationIsNotFailSafe`.
`Idempotency.AlreadyInEffectMayBeWrong` shows in addition that the answer "already in effect" can precede any effect.

Where code and documentation disagree the model follows the code: `_dispatch_failure` says that a timed-out action must not
be replayed automatically, but it marks the slot failed and so claimable; `_Counter` calls itself a fixed-window counter,
but its window slides; the resume route promises that assess steps run again, but starts the runner without `resume` (the
theorems hold for both values).

`Common` holds what several modules share.

## Model

| member | source | states |
|---|---|---|
| `ScenarioProofs.RunsMakeProgress` | arrow_lake/actions/runner.py:231-327 | any run, fresh or resumed, dispatches at most one batch per step of the scenario, with strictly fewer unsettled steps at every dispatch; no step is in two batches or twice in one, and every requirement of a dispatched step succeeded before |
| `ScenarioProofs.SkipsAreLeastClosure` | arrow_lake/actions/runner.py:240-279 | in a fresh run, at every dispatch and in the last round, the skipped steps are exactly the least set containing the losing arms so far and closed under requiring a member, whatever the declaration order |
| `ScenarioProofs.XorExclusive` | arrow_lake/actions/runner.py:263-268 | in a fresh run no dispatched step belongs to an arm that has lost before or loses later |
| `ScenarioProofs.GatewaysDecideInTime` | arrow_lake/actions/runner.py:243-245 | in any run a gateway is decided only once everything its arms require is terminal |
| `ScenarioProofs.CompletedMeansSettled` | arrow_lake/actions/runner.py:287-298 | a run that finds no failed rows, a fresh run in particular, and ends with nothing pending has every step succeeded or skipped |
| `ScenarioDeadlock.StuckBecause` | arrow_lake/actions/runner.py:370-396 | when nothing is runnable in a fresh run, every pending step waits for a pending step, or for a step its gateway names that was skipped too late to be seen |
| `ScenarioDeadlock.DeadlockGuardIsExact` | arrow_lake/actions/runner.py:287-298 | without gateways, the steps left pending are exactly those that reach a requirement cycle; none are left if and only if requirements are acyclic |
| `ScenarioDeadlock.StuckMeansNestedSkip` | arrow_lake/actions/runner.py:240-298 | with an acyclic waits-for graph the only way to leave steps pending is a pending step whose gateway waits for a skipped step |
| `ScenarioDeadlock.AcyclicCompletes` | arrow_lake/actions/runner.py:240-298 | waits-for acyclic, and wherever a gateway waits for a step that may be skipped everything in its arms depends on that step: nothing is left pending, whatever the gateways decide |
| `ScenarioDeadlock.NestedGatewayDeadlocks` | arrow_lake/actions/runner.py:240-279 | without that second condition the claim fails: a saved, acyclic scenario whose first round skips a step another gateway waits for ends with a step unsatisfiable |
| `ScenarioRunner.Runner.GatewayRequirements` | arrow_lake/actions/runner.py:363-368 | all requirements of all steps named in either arm |
| `ScenarioRunner.Runner.SkipArm` | arrow_lake/actions/runner.py:263-268 | exactly the unfinished steps of the losing arm become skipped, in the store and in the run's view alike |
| `ScenarioRunner.Runner.DecideGateway` | arrow_lake/actions/runner.py:241-268 | one XOR gateway is decided once, when everything its arms require is terminal, and its losing arm skipped |
| `ScenarioRunner.Runner.DecideGateways` | arrow_lake/actions/runner.py:240-268 | one pass in declaration order, later gateways seeing earlier skips |
| `ScenarioRunner.Runner.CascadeSkips` | arrow_lake/actions/runner.py:270-279 | the fixpoint loop skips the least set of unfinished dependents of skipped steps, and terminates |
| `ScenarioRunner.Runner.RunnableSteps` | arrow_lake/actions/runner.py:370-396 | the steps neither succeeded nor skipped whose requirements succeeded and whose gateways chose them, in declaration order |
| `ScenarioRunner.Runner.IsBlocked` | arrow_lake/actions/runner.py:382-393 | some XOR gateway names the step and is undecided or chose the other arm |
| `ScenarioRunner.Runner.ExecStep` | arrow_lake/actions/runner.py:409-446 | one start row and one finish row with the outcome of the answer, and the compensation to hang up if the step did not succeed |
| `ScenarioRunner.Runner.Gather` | arrow_lake/actions/runner.py:307-310 | whatever the interleaving of the start and finish rows of a batch, every step starts once and finishes once, and the rows end as if the steps had run one after the other |
| `ScenarioRunner.Runner.Collect` | arrow_lake/actions/runner.py:311-324 | the first failure in batch order, and the compensations of all failed steps without repetition |
| `ScenarioRunner.CompensationsMeaning` | arrow_lake/actions/runner.py:319-324 | the collected compensations are exactly those of the steps that did not succeed, each once |
| `ScenarioRunner.Runner.RunBatch` | arrow_lake/actions/runner.py:307-324 | both together: outcomes, first failure and compensations do not depend on the interleaving |
| `ScenarioRunner.Runner.HandleTimeout` | arrow_lake/actions/runner.py:458-474 | unfinished steps become timed out, and only the escalation step is started, unless it is unknown or succeeded |
| `ScenarioRunner.TimeOutMeaning` | arrow_lake/actions/runner.py:460-463 | a timeout turns exactly the unfinished steps into timed-out ones and leaves every other row |
| `ScenarioRunner.Runner.PrepareRound` | arrow_lake/actions/runner.py:240-279 | gateways, then cascade: the ready state of the round, starting nothing |
| `ScenarioRunner.Runner.Dispatch` | arrow_lake/actions/runner.py:300-327 | a dispatched batch extends the history; the run goes on only if every step of it succeeded, otherwise it ends compensated or at the first failure |
| `ScenarioRunner.Runner.Conclude` | arrow_lake/actions/runner.py:288-298 | nothing to run: failed naming the pending steps if there are any, completed otherwise |
| `ScenarioRunner.Runner.NextRound` | arrow_lake/actions/runner.py:231-327 | each round either extends the history by one valid round or ends the run for the stated reason |
| `ScenarioRunner.Runner.Reopen` | arrow_lake/system_db/stores/scenario_instances.py:182-198 | an instance that ended can be resumed unless it completed |
| `ScenarioRunner.Runner.Run` | arrow_lake/actions/runner.py:196-329 | a run terminates; its dispatches form a history of the state machine, none of them terminated or late; it starts exactly the dispatched steps (and on timeout the escalation step), ends for the reason its instance status names, leaves the rows that reason implies, and never writes to a row it remembers as succeeded |
| `ScenarioRuns.GatewayFreeVerdict` | arrow_lake/actions/runner.py:231-298 | such a fresh run of a gateway-free scenario completes if and only if requirements are acyclic, otherwise it fails naming exactly the steps that reach a cycle |
| `ScenarioRuns.GatewayVerdict` | arrow_lake/actions/runner.py:231-298 | with gateways it completes, every step succeeded or skipped, under the two conditions of `AcyclicCompletes` |
| `ScenarioRuns.FreshRun` | arrow_lake/actions/runner.py:196-329 | both verdicts as statements about what the runner code leaves in a new instance, and no step started twice |
| `ScenarioResume.UnsettledExactly` | arrow_lake/actions/runner.py:287-298 | any run, fresh or resumed, that ends with nothing pending leaves a step neither succeeded nor skipped if and only if it found the step failed, timed out, dead or in manual intervention and never dispatched it |
| `ScenarioResume.ResumeSettles` | arrow_lake/actions/runner.py:213-298 | requirements acyclic, and no step found failed in a gateway arm or depending on an arm or on a skipped row: a run that ends completed has settled every step |
| `ScenarioResume.ResumeCompletesAroundTimeout` | arrow_lake/actions/runner.py:263-298 | without that, from a new instance: a first run that times out and a resumed run that completes, with no step ever started and one left timed out |
| `ScenarioResume.SucceededActionsStayPut` | arrow_lake/actions/runner.py:213-223 | once an action step's row is succeeded, no later run starts it or touches its row, over any sequence of resumed or plain runs, each dying anywhere |
| `ScenarioResume.RunRepeatedly` | arrow_lake/actions/runner.py:213-223 | the same of the runner itself, executed again and again over the rows its predecessors left |
| `ScenarioResume.RunOver` | arrow_lake/actions/runner.py:213-223 | one run over stored rows: without `resume` nothing that succeeded is started again; with it succeeded actions are not, and if the run completes every succeeded assess step has been started again or skipped |
| `ActionReplay.StepSucceedsExactly` | arrow_lake/actions/runner.py:62-68 | a step goes on exactly when its action was executed now or is in effect already; the other answers become the statuses of their name |
| `ActionReplay.ReplayAfterCrash` | arrow_lake/actions/middleware.py:253-278 | a run that dies between effect and step row, and the resumed run: the step succeeds and the effect is applied once |
| `Idempotency.StepConserves` | arrow_lake/system_db/stores/actions.py:128-179 | applied effects, writes in flight and remaining permissions together grow only by timeouts and operator resets |
| `Idempotency.EffectsBounded` | arrow_lake/actions/middleware.py:253-328 | over every interleaving with crashes and lost marks: effects are at most one plus timeouts plus operator resets |
| `Idempotency.BoundIsAttained` | arrow_lake/actions/middleware.py:253-328 | for all numbers of timeouts and resets some interleaving applies the effect once for each of them and once more |
| `Idempotency.AtMostOnce` | arrow_lake/actions/middleware.py:253-328 | without timeouts and resets the effect is applied at most once |
| `Idempotency.AtMostOnceExactly` | arrow_lake/actions/middleware.py:253-328 | at most once is guaranteed if and only if there are neither timeouts nor resets |
| `Idempotency.CompletedMeansApplied` | arrow_lake/actions/middleware.py:367-368 | a completed slot means that the effect was applied |
| `Idempotency.TimeoutAllowsSecondEffect` | arrow_lake/actions/middleware.py:566-592 | one timed-out execution can lead to two effects, because it leaves the slot failed while its write may still land |
| `Idempotency.AlreadyInEffectMayBeWrong` | arrow_lake/actions/middleware.py:270-278 | after a crash between claim and effect, a replay is answered "already in effect" although nothing was applied |
| `Idempotency.TryEffect` | arrow_lake/actions/middleware.py:280-328 | what the holder of a slot does and answers for every outcome of preconditions, effect and fallback; a timeout is always handed to a human |
| `Idempotency.Middleware.ExecuteAction` | arrow_lake/actions/middleware.py:253-391 | one execution: refused exactly when the slot is running or completed, "executed" exactly when its effect was applied, each other answer exactly when it is due, and the slot it leaves in each case |
| `AclRewrite.FilteredSubquery` | arrow_lake/api/rbac_sql.py:262-278 | the subquery put in place of a restricted table yields exactly its passing rows, in order |
| `AclRewrite.RowFilterPushdown` | arrow_lake/api/rbac_sql.py:257-280 | evaluating the rewritten query is evaluating the original on the database whose restricted tables are already filtered, for every query: nested, correlated, joined, grouped |
| `AclRewrite.RewriteLeavesUnfiltered` | arrow_lake/api/rbac_sql.py:258-261 | a query that references no table with a row filter is left as it is |
| `Sql.KeysTellTablesApart` | arrow_lake/api/rbac_sql.py:46-57 | two references have the same key exactly when database and name are the same, so a two-part reference never meets the ACL of a plain one |
| `AclCheck.ComputeLocalAliasMap` | arrow_lake/api/rbac_sql.py:83-106 | the loop over one select's own sources builds the map of its base tables, derived tables excluded, later entries winning |
| `AclCheck.ResolveRealTable` | arrow_lake/api/rbac_sql.py:109-127 | the outward walk returns the first enclosing select's entry, then the tree-wide map's, then the name itself |
| `AclCheck.ResolveFindsBinding` | arrow_lake/api/rbac_sql.py:109-127 | that walk finds the base table which lexical scoping binds the name to, if and only if no other base table that is a sibling of an enclosing derived table carries the name; for any tree-wide map |
| `AclCheck.CollectAcls` | arrow_lake/api/rbac_sql.py:183-191 | exactly the ACLs of referenced tables that restrict rows or columns |
| `AclCheck.CheckColumns` | arrow_lake/api/rbac_sql.py:209-222 | the pass over the columns accepts exactly if every column of a restricted table, as the walk resolves it, is visible |
| `AclCheck.CheckStars` | arrow_lake/api/rbac_sql.py:236-255 | the pass over the stars accepts exactly if none can reach a restricted table |
| `AclCheck.AllIsEvery` | arrow_lake/api/rbac_sql.py:209-209 | the list of nodes the passes run over holds every node of the tree, in its scope |
| `AclCheck.EnforceSqlAcl` | arrow_lake/api/rbac_sql.py:174-289 | the passes composed in their order give the outcome that the next two results are about |
| `AclAcceptance.AcceptsExactly` | arrow_lake/api/rbac_sql.py:174-289 | a well-scoped query is accepted, and then rewritten, if and only if all its tables are readable, every column bound to a column-restricted table is visible, and no star or COLUMNS() can reach such a table; otherwise the first of these that fails is named |
| `AclNonInterference.NonInterference` | arrow_lake/api/rbac_sql.py:130-289 | whatever the enforcement accepts gives the same result on any two databases that agree on the visible columns of the rows passing each referenced table's filter |
| `KCenter.Farthest` | arrow_lake/annotation/sampler.py:61-61 | the position of the first untaken id with the greatest recorded distance |
| `KCenter.SelectNext` | arrow_lake/annotation/sampler.py:60-66 | the recorded distance of every untaken id stays its exact distance to the selected set, and each selected id was farthest from those before it |
| `KCenter.KCenterGreedy` | arrow_lake/annotation/sampler.py:53-67 | min(n, candidates) distinct candidates in farthest-first order, none for n <= 0 |
| `KCenter.TwoApproximation` | arrow_lake/annotation/sampler.py:53-67 | in any metric, if any n centres cover the candidates within r, the n selected ids cover them within 2r |
| `Quotas.LeftoverFits` | arrow_lake/annotation/sampler.py:76-81 | the seats left after rounding down are no more than the strategies, and the largest fractions they go to are all nonzero |
| `Quotas.ApportionsFollowWeights` | arrow_lake/annotation/sampler.py:76-81 | every quota is within one seat of total times weight over the sum of active weights, and a heavier strategy never gets fewer seats |
| `Quotas.AssignQuotas` | arrow_lake/annotation/sampler.py:70-82 | quotas sum to exactly the total once a weight is positive, each is its exact share rounded down or up (up only for a fractional share, larger fractions first), zero for inactive strategies, and they follow the weights |
| `Sampler.Choose` | arrow_lake/annotation/sampler.py:139-143 | a strategy contributes min(quota, what is left of its pool): its favourites in order, or a farthest-first selection |
| `Sampler.PickByStrategy` | arrow_lake/annotation/sampler.py:133-146 | the four strategies are served in order, each from what the earlier ones left, none beyond its quota |
| `Sampler.Fill` | arrow_lake/annotation/sampler.py:148-157 | the sample is topped up to the target with exactly the first untaken candidates, in candidate order |
| `Sampler.SampleRows` | arrow_lake/annotation/sampler.py:96-157 | exactly min(total, distinct candidates) rows, all distinct, each from the pool of the strategy it names, none beyond its quota, lowest scores first for uncertainty, assembled as the strategies in order and then the first candidates left over; for every mix of pools and weights |
| `SamplerPools.PoolMembers` | arrow_lake/annotation/sampler.py:100-118 | each pool holds exactly the requested rows that its strategy knows |
| `SamplerPools.PoolOrder` | arrow_lake/annotation/sampler.py:100-118 | uncertainty: lowest score first, ties in request order; failed rows and disagreements in the order given; the rest in request order |
| `Agreement.TotalSquaredBound` | arrow_lake/annotation/quality.py:67-74 | Cauchy-Schwarz over tasks: the square of a category's total is at most the number of tasks times the sum of its squared counts |
| `AgreementCases.TotalSquaredTight` | arrow_lake/annotation/quality.py:67-74 | that bound is met exactly when every task has the same number of votes for the category |
| `Agreement.ChanceBelowOne` | arrow_lake/annotation/quality.py:74-76 | chance agreement is below one as soon as two categories occur |
| `Kappa.KappaOfBounds` | arrow_lake/annotation/quality.py:64-77 | Fleiss' formula is defined, lies in [-1/(n-1), 1] and equals 1 exactly when every task is unanimous |
| `Kappa.KappaOfCases` | arrow_lake/annotation/quality.py:64-77 | it is at -1/(n-1) exactly when every label has the same number of votes in every task, and zero exactly when observed and chance agreement are equal, said of vote counts |
| `Kappa.KappaOfSolves` | arrow_lake/annotation/quality.py:64-77 | it is the only solution of the equation with denominators cleared, whose coefficients are sums of squared vote counts |
| `Kappa.CountVotes` | arrow_lake/annotation/quality.py:68-72 | the loop over one task's labels adds its counts to the totals and yields the sum of their squares |
| `Kappa.KappaOfRows` | arrow_lake/annotation/quality.py:58-77 | the value of Fleiss' formula on complete rows (1 for a single category), with its bounds, both ends, its zero and its equation, never dividing by zero |
| `Kappa.FleissKappa` | arrow_lake/annotation/quality.py:49-77 | no value exactly when raters, tasks or votes are too few; otherwise that value on the first votes of each task, with the same characterisations |
| `Kappa.Adjudicate` | arrow_lake/annotation/quality.py:89-115 | approved, pending or arbitration for every task, each if and only if: ground truth or enough agreeing annotators; agreement of too few; disagreement or no annotation; with the kappa and the signatures that go with it |
| `Kappa.ProjectKappa` | arrow_lake/annotation/quality.py:118-140 | the value of Fleiss' formula on the signatures of the eligible tasks, in order, trimmed to the given or least number of raters; when it exists, its bounds, and when it is 1 |
| `Recovery.ExistingState` | arrow_lake/annotation/sync.py:90-105 | all stored ids and the highest version per group, which in a chained table is the size of the group |
| `Recovery.BuildAdlBatch` | arrow_lake/annotation/adl.py:81-113 | the table plus the batch is the table after appending each annotation unless its content is known, with the next version of its group |
| `Recovery.IncrementalTasks` | arrow_lake/annotation/recover.py:153-189 | the due tasks, the new watermark and the new counts as the compound criterion defines them |
| `Recovery.AppendAllKeeps` | arrow_lake/annotation/adl.py:81-113 | appending keeps ids unique and chains gapless, adds exactly the new contents, and rewrites nothing |
| `Recovery.AddedRowsCarryVerdicts` | arrow_lake/annotation/adl.py:92-107 | every added row comes from a recovered annotation and carries the review status its row was adjudicated, pending if it was not |
| `Recovery.ReplayWritesNothing` | arrow_lake/annotation/adl.py:87-88 | a batch whose contents are all known writes nothing |
| `Recovery.Recoverer.RecoverOne` | arrow_lake/annotation/sync.py:219-251 | rows, then watermark, then counts, dying anywhere in between: the new stored state, chains kept |
| `RecoveryRuns.RecoveryLosesNothing` | arrow_lake/annotation/sync.py:219-251 | over any sequence of polls whose annotation lists only grow, at any place and in any order, with crashes anywhere: after a finished recovery the layer holds exactly the contents of all parseable annotations seen so far |
| `RecoveryRuns.VersionsStayChained` | arrow_lake/annotation/adl.py:81-113 | at every moment of any sequence of recoveries, finished or not, ids are unique and chains intact |
| `RecoveryRuns.ChainIsGapless` | arrow_lake/annotation/adl.py:90-91 | the versions of a (row, annotator) pair are exactly 1..k, k the number of its rows, each once |
| `RecoveryRuns.DueExactly` | arrow_lake/annotation/recover.py:179-189 | after a finished recovery a task is due exactly when it has gained annotations: nothing grown is passed over and nothing unchanged is read again |
| `RecoveryRuns.RepollChangesNothing` | arrow_lake/annotation/recover.py:153-189 | polling the same export again after a finished recovery finds nothing due and changes nothing |
| `RecoveryRuns.SharedIdsLoseAnnotations` | arrow_lake/annotation/recover.py:171-187 | whenever two tasks share an id (as all without a usable one do), from any stored state, there is a growth that loses an annotation: unique task ids are needed |
| `PredicateParser.Parser.ParseAll` | arrow_lake/actions/predicates.py:218-223 | the cursor-moving parser terminates and computes the grammar's parse of the whole token list, or none |
| `PredicateParser.Parser.OrExpr` | arrow_lake/actions/predicates.py:225-230 | agrees with the grammar in result and in where the cursor stands |
| `PredicateParser.Parser.Comparison` | arrow_lake/actions/predicates.py:255-276 | the same for comparisons, memberships with and without `not`, `contains` and bare operands |
| `PredicateParser.Parser.ListExpr` | arrow_lake/actions/predicates.py:290-311 | the same for literal lists: nonempty, comma-separated, bracketed |
| `PredicateProofs.ParseUndoesRender` | arrow_lake/actions/predicates.py:218-311 | rendering any well-formed tree with parentheses where precedence asks for them and parsing it gives the tree back, all tokens consumed |
| `PredicateProofs.ParseAcceptsWellFormed` | arrow_lake/actions/predicates.py:218-311 | every accepted tree is well-formed and is what its own rendering parses to; without a bare `not` in the input it has no negation node |
| `PredicateTokens.NothingIgnored` | arrow_lake/actions/predicates.py:218-311 | an accepted token list is, parentheses aside, exactly the rendering of its tree, with as many closing as opening parentheses: no token is ignored |
| `PredicateEval.ResolvePath` | arrow_lake/actions/predicates.py:71-79 | the loop down the segments reads null as soon as a level is missing |
| `PredicateEval.AcceptedEvaluates` | arrow_lake/actions/predicates.py:344-386 | an accepted predicate evaluates to a truth value in every context, reaching none of the evaluator's errors |
| `PredicateEval.ConnectivesMean` | arrow_lake/actions/predicates.py:350-355 | `and` holds exactly when every part does, `or` exactly when some part does, `not` exactly when its operand does not |
| `PredicateEval.ComparisonsMean` | arrow_lake/actions/predicates.py:319-341 | null on either side makes a comparison false; otherwise `==` is the host's equality, `!=` the opposite of `==`, orderings and `contains` the host's; a bare operand holds when truthy |
| `PredicateEval.MembershipMeans` | arrow_lake/actions/predicates.py:362-367 | `x in [..]` holds exactly when some `x == v` does, and `not in` is its opposite on a non-null x |
| `PredicateEval.TruthMovesOneWay` | arrow_lake/actions/predicates.py:344-386 | filling in missing data only makes a predicate true if no path is under an odd number of negations, and only false if none is under an even number |
| `PredicateEval.MissingDataIsFailSafe` | arrow_lake/actions/predicates.py:319-386 | from tokens to truth: an accepted predicate with no path under an odd number of negations, in particular one without a bare `not`, that holds with data missing still holds when the data is there |
| `PredicateEval.NegationIsNotFailSafe` | arrow_lake/actions/predicates.py:354-355 | a bare `not` over a missing path holds, and fails once the path is there |
| `Backfill.Rebuild` | arrow_lake/_lake_ingest.py:1300-1317 | the scatter keeps every stored vector in its own row and puts each null row's encoding into that row |
| `Backfill.VectorsStayWithTheirRows` | arrow_lake/_lake_ingest.py:1219-1343 | over any interleaving of appends and embedding jobs, which look, read, check, drop and add in separate steps and may fail at any of them, every stored vector is an encoding of its own row's text |
| `Backfill.Dataset.EmbedAndAdd` | arrow_lake/_lake_ingest.py:1219-1232 | one undisturbed call leaves the column complete and right whatever was left behind, keeping the vectors it finds |
| `RateLimit.Counter.Prune` | arrow_lake/api/rate_limit.py:90-91 | the pruned list is what the full admission log shows of the window ending now, for every later query too |
| `RateLimit.Counter.Hit` | arrow_lake/api/rate_limit.py:87-97 | a request is refused exactly when a positive limit is met by the log's window ending now, naming the earliest admission in it; admitted ones extend the log |
| `RateLimit.Counter.Remaining` | arrow_lake/api/rate_limit.py:99-104 | the limit minus the log's window, not below zero |
| `RateLimit.Counter.Count` | arrow_lake/api/rate_limit.py:106-111 | the size of the log's window |
| `RateLimit.EveryWindowBounded` | arrow_lake/api/rate_limit.py:92-95 | if every admission found room in the window ending at it, every window of that length, wherever it ends, holds at most the limit |
| `RateLimit.RunHits` | arrow_lake/api/rate_limit.py:87-97 | a run of hits with non-decreasing times admits exactly those with room, and no window ever holds more than the limit |
| `RateLimit.RetryAfterIsExact` | arrow_lake/api/rate_limit.py:92-94 | the earliest admission reported with a refusal tells exactly when the key opens again |

## Left out

- HTTP wiring, telemetry, CLI, flows, seed scripts, role matrix, JWT handling and catalogue listing: plumbing that would only add easy members.
- Parsing and qualifying SQL: the model starts from a tree in which every column carries its table name, every table reference and projection an alias, and identifiers are in canonical case.
- CTEs, outer joins other than LEFT, parenthesised tables, ORDER BY, LIMIT, DISTINCT and set operations other than UNION ALL are not in the query language; text normalisation of filter predicates is not modelled.
- AclAcceptance.AcceptsExactly: assumes in addition that names not bound to a base table are no base table's alias or real name in the query, because the walk then falls back to the tree-wide map and may check them against that table.
- AclNonInterference.NonInterference: for well-scoped queries only (aliases of one select distinct, none equal to the real name of a different referenced table, no name captured by another base table that is a sibling of an enclosing derived table), because outside them the outward walk and lexical scoping name different tables, as `AclCheck.ResolveFindsBinding` states.
- AclRewrite.RowFilterPushdown: the rewriting returns a new tree, while the source replaces nodes of one tree in place during a traversal; the order of replacement is not modelled.
- The tree-wide alias map of `_alias_map`: a parameter about which nothing is assumed.
- Gateway predicates, context updates and confidence down-weighting in the runner: the decision of each gateway is part of the world; so is what a step answers. Heartbeat and orphan reaping are not modelled.
- ScenarioRunner.Runner.Run: store exceptions and the crash handler's final status are not modelled; a run that dies after any of its writes is, in `ScenarioResume.RunRepeatedly`.
- Unique gateway ids: assumed, since the schema only enforces unique step ids; the cross-reference checks of `validate_scenario` appear as the predicate `CrossReferenced`, those on actions and branches do not.
- ScenarioDeadlock.AcyclicCompletes: the nesting condition is sufficient, not necessary; whether another nested gateway gets stuck depends on what else is runnable in the round.
- ScenarioResume.ResumeSettles: its condition on spec and rows is sufficient; the exact one, `UnsettledExactly`, is about the run.
- ScenarioProofs.XorExclusive: says nothing of the escalation step started after a deadline, which may belong to a losing arm.
- Idempotency.AtMostOnce: for executions under one key; actions without a key have no slot, a mark or claim that times out is lost and does not land later, and audit and events are not modelled.
- Idempotency.Middleware.ExecuteAction: one execution undisturbed by others; interleavings are covered by the state machine.
- Floating point in sampling, quotas, kappa, vectors and timestamps: exact reals, abstract metrics and abstract vectors.
- `annotation_signature`: signatures are given; the separators of its string form are not analysed.
- Kappa.FleissKappa: lists categories in order of occurrence rather than sorted, which the sums do not see.
- Recovery: parsing of Label Studio payloads is an optional record per annotation, the content hash any function, verdicts any map; arbitration tasks, webhooks, circuit breaker, lock expiry, failing table reads and edits that keep the number of annotations are not modelled.
- RecoveryRuns.RecoveryLosesNothing: assumes unique task ids and annotation lists that only grow.
- Tokenizing, templates and compilation caches of the predicate language: parsing starts from tokens. Equality, ordering, membership and truth of values are parameters; inequality is taken as the negation of equality.
- PredicateEval.MissingDataIsFailSafe: excludes every path under an odd number of negations, although some are harmless; which are depends on the values met.
- Backfill: vector dimensions, the encoder backends, the asynchronous threshold, and deletion or update of rows; the store is taken to reject an existing column and a differing row count.
- Rate limiting through Redis, eviction of idle counters, and one counter per worker process.
