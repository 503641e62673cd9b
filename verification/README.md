# Flowker: a verified model of the workflow engine

This project models the parts of Flowker whose correctness is hardest to see by reading, and proves
properties of them with Dafny 4.11. `dafny verify dfyconfig.toml` checks everything.

| file | what it models |
|---|---|
| `Values.dfy`, `Strings.dfy` | dynamic values; splitting, joining, trimming |
| `Workflows.dfy` | workflow definitions, structural validation, status transitions, graph building |
| `Executions.dfy` | executions and steps as state machines; the stored record behind check-and-set |
| `Retry.dfy` | the retry loop with exponential backoff, around a circuit breaker |
| `Engine.dfy` | the graph walk with its node handlers, and the run around it |
| `RunProperties.dfy`, `Moments.dfy` | what every run keeps: step log, data flow, stored status; what holds whenever a node is processed |
| `NodeMeanings.dfy`, `Writes.dfy` | what single nodes mean: calls, branches, outputs; what the writes of a run find and replace |
| `Unfolding.dfy`, `Cycles.dfy` | the walk against the graph: unfoldings, cycles |
| `Counting.dfy`, `Totals.dfy` | how often nodes run: edge paths, and the announced total |
| `Condition.dfy`, `Comparisons.dfy` | the condition language; what conditions answer |
| `Idempotency.dfy`, `Callers.dfy` | concurrent `Execute` calls over a unique key; what each caller gets |
| `Webhooks.dfy`, `Commands.dfy` | the webhook registry, the workflow commands |
| `Lifecycle.dfy`, `CommandsAlone.dfy`, `Overlaps.dfy` | interleavings of the commands and restarts; each command on its own; which overlaps the registry survives |
| `JsonPaths.dfy`, `UnknownFields.dfy`, `DoubleChecked.dfy` | path transforms, the unknown-field diff, double-checked creation |

How the model is built:

* **The engine** is a class with the fields that `traverseNode` threads by reference (`wfCtx`,
  `stepNumber`, `inPath`, the execution). Each method is proved equal to a function of the old state
  (`Visit` for the walk, `Run` for the state machine), and the properties are proved of these functions.
  Everything outside (timeouts, executor calls, conditions, database failures, writes by other workers) is
  an arbitrary function of the moment it is asked, so every theorem holds for all behaviours of the outside.
* **Concurrency** is modelled as atomic steps over shared state; theorems quantify over all event sequences.
* Specification functions are themselves given meaning by lemmas that do not repeat them: a call delivers the
  mapped answer of the attempt that ended the loop (`CallMeaning`), a decided conditional takes the first edge
  named after its verdict (`ConditionalMeaning`), a check-and-set finds the status it expects
  (`CheckAndSet`), a comparison answers how its operands stand (`NumericAnswer`, `TextAnswer`), the loser of
  an insert race is given the stored execution (`LoserGetsStored`).
* Error texts are modelled by datatypes that keep what the texts distinguish.

Properties that do not hold as one might expect, with the exact condition:

* Idempotency. The key is stored as given but looked up trimmed. All callers of a key agree on one
  execution exactly when the key has no surrounding white space or is blank (`AgreementIffTrimmed`). The
  HTTP handlers trim the key, so they meet the condition.
* Conditions. `splitLogical` is documented to respect word boundaries, but quotes do not protect an
  operator: `x == 'a AND b'` is split (`QuotedOperatorSplits`). A printed formula is read back exactly when
  it is unambiguous (`PrintThenParse`).
* Registry. Nothing in the source keeps commands on one workflow apart, and some overlaps leave a workflow
  active without its routes (`ConcurrentActivationsLoseRoute`, `LateCleanUpLosesRoute`). Over all policies
  of what may overlap, the registry agrees with the active workflows in every interleaving exactly when an
  activation starts neither beside another activation of the workflow nor beside a command that is about to
  take the workflow's routes down; everything else may overlap (`InStepIffGuarded`).
* Total steps. An execution announces one step per node that is not a trigger, but a node runs once per
  edge path. An acyclic workflow in which everything takes part (one trigger, from which executors and
  actions with distinct ids are reached) keeps within the total in all runs exactly when no node has two
  incoming edges (`WithinTotalIff`); a run without error then logs exactly the total
  (`TotalIsExact`). In general, reachable nodes are logged once each exactly when none is reached by two
  ways (`StepsCountReached`).
* A transform at a path with an empty segment can read a string but not write it (`SetReplacesLeaf`).
* A missing document under a check-and-set write: the repository interface speaks of a not-found error, the
  MongoDB adapter reports a state conflict. The model follows the adapter.

## Model

| member | source | states |
|---|---|---|
| Engine.Engine.TraverseNode | internal/services/command/execute_workflow.go:336-403 | the walk terminates on every graph, cyclic or not, does what Visit says, and restores inPath on every exit, error exits included |
| Engine.Engine.FollowEdges | internal/services/command/execute_workflow.go:391-400 | the edges are followed in order up to the first error |
| Engine.Engine.ExecuteExecutorNode | internal/services/command/execute_workflow.go:407-597 | an executor node logs one step: completed and stored by check-and-set with the context extended, or failed, stored unconditionally and only then failing the execution |
| Engine.Engine.CallExecutor | internal/services/command/execute_workflow.go:461-576 | the checks before and after the call, in order, with the attempt number of the retry loop |
| NodeMeanings.CallMeaning | internal/services/command/execute_workflow.go:461-576 | a call delivers o after n attempts iff the provider id is given, parses and names an active configuration, both inputs build, attempt n ended the loop with an answer and the output mapping of that answer is o; every cause of failure iff its own guard |
| Engine.Engine.EvaluateConditionalNode | internal/services/command/execute_workflow.go:881-953 | a decided conditional takes the first edge with the matching handle; an undecided one fails |
| NodeMeanings.ConditionalMeaning | internal/services/command/execute_workflow.go:922-953 | a condition decided true (false) logs branchTaken "true" ("false") and, once stored, leads to the target of the first edge in the definition with that handle, or nowhere when there is none or its target is empty |
| NodeMeanings.UndecidedMeaning | internal/services/command/execute_workflow.go:894-920 | a missing or undecidable condition fails the node with that cause and leads nowhere |
| NodeMeanings.UnfoldingGoesTo | internal/services/command/execute_workflow.go:376-385 | the unfolding below a decided conditional stands at the target of that edge |
| Engine.Engine.ExecuteActionNode | internal/services/command/execute_workflow.go:956-976 | an action logs a completed step and set_output replaces the output in the context |
| NodeMeanings.ActionMeaning | internal/services/command/execute_workflow.go:956-976 | only an action of type set_output with an object as output changes the context, at "output"; an action stores nothing and never fails |
| NodeMeanings.CompletedStepStored | internal/services/command/execute_workflow.go:584-594 | after a completed step the walk goes on iff the database is up and the record is still running, with a conflict iff it is not; only then the step is stored |
| NodeMeanings.FailedStepStored | internal/services/command/execute_workflow.go:547-560 | a failed step is stored whatever the status of the record, in the status the execution had before |
| NodeMeanings.StepNamed | internal/services/command/execute_workflow.go:1228-1234 | a logged step carries its number, its node and the name shown for it |
| NodeMeanings.EntryChecks | internal/services/command/execute_workflow.go:346-361 | a visit looks at the time, then at the recursion stack, then for the node; a refused one changes nothing |
| NodeMeanings.TimeoutsAreReal | internal/services/command/execute_workflow.go:346-348 | a walk that timed out did so at the moment it last looked |
| NodeMeanings.StepsAreMeant | internal/services/command/execute_workflow.go:363-388 | every step in the log of a run is what its node means: a call, a verdict, an action |
| NodeMeanings.OutputsAreMapped | internal/services/command/execute_workflow.go:562-582 | over a run, every completed executor step holds the output mapping of an answer that the last attempt gave |
| Engine.Engine.RunStateMachine | internal/services/command/execute_workflow.go:231-331 | the whole run: trigger search, walk, and its conclusion with or without error |
| Engine.Engine.StartExecution | internal/services/command/execute_workflow.go:182-208 | pending to running in memory and by check-and-set, with the two ways to fail |
| NodeMeanings.StartMeaning | internal/services/command/execute_workflow.go:182-208 | the move to running goes through iff the record is pending; a conflict writes nothing more, a broken write fails the execution and stores that |
| RunProperties.VisitKeeps | internal/services/command/execute_workflow.go:336-403 | what each processed node keeps, every walk keeps; what each failing node meets, every error exit meets |
| RunProperties.LogDiscipline | internal/services/command/execute_workflow.go:363-388 | on every exit step i has number i+1, currentStepNumber is the log length, all steps but possibly the last are completed, none is running |
| RunProperties.RunOutcome | internal/services/command/execute_workflow.go:254-330 | a fresh run without a trigger fails before any step; any other completes exactly when the walk returned nil, and otherwise, barring a conflict, fails with the message of the first failure; its output is what the log says |
| RunProperties.FullRunOutcome | internal/services/command/execute_workflow.go:178-330 | the same from the created record on, with the two ways in which the move to running can fail |
| RunProperties.DataFlow | internal/services/command/execute_workflow.go:578-582 | the context is always the replay of the step log, so was the input of every executor and conditional step, and conditionals branched as their conditions say |
| RunProperties.BranchesFollowReplay | internal/services/command/execute_workflow.go:907-935 | a completed conditional recorded what its condition gives on the context replayed from the log before it |
| RunProperties.InputsCarryOutputs | internal/services/command/execute_workflow.go:266-269 | the input recorded by an executor or conditional step holds the last output of every executor completed before it, and the input of the run |
| Moments.StackOutputsInContext | internal/services/command/execute_workflow.go:355-388 | whenever a node of any type is processed, every executor above it on the recursion stack has completed a step, and the context holds the output of the last one |
| Moments.InputStaysInContext | internal/services/command/execute_workflow.go:266-269 | whenever a node is processed, "workflow" still holds the input of the run |
| Moments.MomentsTellTheLog | internal/services/command/execute_workflow.go:363-388 | the steps of a walk belong, one to one and in order, to the moments at which executors, conditionals and actions are processed |
| Moments.StackAtMoments | internal/services/command/execute_workflow.go:350-356 | the first moment of a visit is its own node's, and at all later ones that node stands on the stack above what stood there before |
| Moments.LogAtMoments | internal/services/command/execute_workflow.go:363-388 | the log at a moment holds exactly the steps of the moments before it |
| RunProperties.FinalOutputOfRun | internal/services/command/execute_workflow.go:305-320 | the final output is that of the last set_output step (or of an executor with the very id "output"), or the whole context when there is none |
| RunProperties.StoreDiscipline | internal/services/command/execute_workflow.go:584-594 | with one worker the stored status stays running through the walk, and no state conflict occurs |
| RunProperties.StatusSafety | internal/services/command/execute_workflow.go:178-208 | with one worker the stored status only moves pending, running, completed or failed (or straight to failed), and ends equal to memory when no write fails |
| RunProperties.ConflictEndsWalk | internal/services/command/execute_workflow.go:935-941 | with any number of workers, a state conflict is the last write a walk attempts |
| RunProperties.ConflictSilences | internal/services/command/execute_workflow.go:275-285 | a worker that met a state conflict writes nothing afterwards, up to the end of its run |
| RunProperties.FullRunConflict | internal/services/command/execute_workflow.go:187-208 | the same from the move to running on: a conflict is the last write that a worker attempts |
| Writes.NoLostVerdict | internal/services/command/execute_workflow.go:935-941 | over a run with any number of workers, every applied write that expected a status found exactly that status, so none replaced a completed or failed record; every conflict had found another |
| Writes.TakenOverStops | internal/services/command/execute_workflow.go:584-594 | when another worker takes the record out of running, the next completed step meets a conflict and the record stays as it was left |
| Unfolding.VisitUnfolds | internal/services/command/execute_workflow.go:363-400 | the step log of every walk is the preorder of an unfolding of the graph in which a conditional takes its recorded branch; the unfolding is whole exactly when the walk returned nil |
| Cycles.ErrorsAreReal | internal/services/command/execute_workflow.go:350-361 | with conditionals and any environment, a cycle error names a node on a reachable closed walk, a missing-node error a reachable unknown node |
| Cycles.NoErrorNoCycle | internal/services/command/execute_workflow.go:350-353 | a walk without error over an unconditional graph has no reachable cycle and knows every reachable node |
| Cycles.CycleDetectionIsExact | internal/services/command/execute_workflow.go:336-403 | when reachable nodes are known and unconditional and steps succeed, the walk returns nil iff no cycle is reachable, else the cycle error |
| Cycles.CalmSucceeds | internal/services/command/execute_workflow.go:407-597 | steps succeed when no time runs out, no write fails, one worker runs and every reachable executor delivers |
| Cycles.StructuredRun | internal/services/command/execute_workflow.go:254-264 | a run of a well-structured workflow with non-empty node ids finds its trigger and meets no unknown node |
| Counting.OneStepPerEdgePath | internal/services/command/execute_workflow.go:333-335 | in a walk without error over an unconditional graph, each step-logging node appears once per distinct edge path from the trigger, in preorder |
| Totals.StepsWithinTotal | internal/services/command/execute_workflow.go:1184-1194 | when no node has two incoming edges, no run, however it ends, logs more steps than totalSteps |
| Totals.StepsCountReached | internal/services/command/execute_workflow.go:333-335 | a walk without error over an unconditional graph logs every reachable node that records, and each once iff none is reached by two ways |
| Totals.TotalIsExact | internal/services/command/execute_workflow.go:1184-1194 | when everything takes part, a run without error logs at least totalSteps steps, and no more iff no node has two incoming edges |
| Totals.WithinTotalIff | internal/services/command/execute_workflow.go:168-172 | an acyclic workflow in which everything takes part keeps within totalSteps in all runs iff no node has two incoming edges |
| Totals.ParallelEdgesExceedTotal | internal/services/command/execute_workflow.go:168-172 | two parallel edges from the trigger to one action: the run logs two steps where totalSteps is one |
| Retry.ExecuteRunnerWithRetry | internal/services/command/execute_workflow.go:749-790 | the loop returns what the first stopping attempt brings; at most 5 attempts and 15 seconds of waiting |
| Retry.RetryMeaning | internal/services/command/execute_workflow.go:758-789 | all attempts before the last were transient refusals, and the waits before attempt k total 2^(k-1)-1 seconds |
| Retry.RetryEndsAt | internal/services/command/execute_workflow.go:758-789 | the loop ends after exactly one attempt number, and hands on what that attempt brought, or the error of a wait cut short |
| Retry.BreakerTrips | pkg/circuitbreaker/breaker.go:15-25 | the fifth consecutive failure opens the breaker for 30 seconds, then one trial passes |
| Retry.BreakerMeetsRetry | pkg/circuitbreaker/breaker.go:66-74 | on an unshared closed breaker with c failures a failing executor is called exactly 5-c times, and the result is circuit-open iff c > 0 |
| Workflows.ValidateWorkflowDataForDraft | pkg/model/workflow.go:84-116 | no problem iff sizes fit and edges resolve; otherwise exactly when which problem is reported |
| Workflows.ValidateWorkflowStructure | pkg/model/workflow.go:122-165 | no problem iff well-structured: named, sized, with a trigger, edges between known nodes; otherwise exactly when which problem is reported |
| Workflows.Workflow.Activate | pkg/model/workflow.go:315-324 | draft to active, else unchanged |
| Workflows.Workflow.Deactivate | pkg/model/workflow.go:328-337 | active to inactive, else unchanged |
| Workflows.Workflow.MoveToDraft | pkg/model/workflow.go:341-350 | inactive to draft, else unchanged |
| Workflows.Workflow.Update | pkg/model/workflow.go:354-370 | replaces the data of a draft iff it may be a draft's data |
| Workflows.Workflow.SetMetadata | pkg/model/workflow.go:390-397 | sets one metadata entry and nothing else |
| Workflows.Workflow.Clone | pkg/model/workflow.go:373-387 | a fresh draft with the same graph, or a problem |
| Workflows.BuildGraph | internal/services/command/execute_workflow.go:1197-1204 | for every source the outgoing edges in definition order |
| Workflows.BuildNodeMap | internal/services/command/execute_workflow.go:1207-1214 | every id leads to the last node with that id |
| Workflows.FindTriggerNode | internal/services/command/execute_workflow.go:1217-1225 | the id of the first trigger, or the empty string |
| Workflows.FirstTriggerFound | internal/services/command/execute_workflow.go:1217-1225 | the trigger found is the first trigger node; with non-empty trigger ids none is found iff there is none |
| Workflows.LastNodeWins | internal/services/command/execute_workflow.go:1207-1214 | of several nodes with one id the last is known |
| Workflows.CountExecutableNodes | internal/services/command/execute_workflow.go:1184-1194 | the number of nodes that are not triggers |
| Executions.ExecutionStep.MarkCompleted | pkg/model/execution.go:212-224 | completes a step that is not terminal, else changes nothing |
| Executions.ExecutionStep.MarkFailed | pkg/model/execution.go:227-239 | fails a step that is not terminal, else changes nothing |
| Executions.ExecutionStep.MarkSkipped | pkg/model/execution.go:242-253 | skips a step that is not terminal, else changes nothing |
| Executions.WorkflowExecution.MarkRunning | pkg/model/execution.go:378-386 | pending to running only |
| Executions.WorkflowExecution.MarkCompleted | pkg/model/execution.go:389-400 | running to completed only |
| Executions.WorkflowExecution.MarkFailed | pkg/model/execution.go:406-417 | any non-terminal status to failed; the first message stays |
| Executions.WorkflowExecution.AddStep | pkg/model/execution.go:420-423 | appends a step and moves the current step number |
| Executions.WorkflowExecution.Snapshot | pkg/model/execution.go:432-447 | a fresh object with the same value |
| Executions.WorkflowExecution.LastCompletedStepNumber | pkg/model/execution.go:451-460 | the largest number of a completed step, or 0 |
| Executions.ExecutionRepository.Update | internal/services/command/execution_repository.go:141-147 | with an expected status the write happens only if the record has it; without one unconditionally; a refused write changes nothing |
| Executions.CheckAndSet | internal/services/command/execution_repository.go:141-147 | with an expected status a write that does not fail is applied iff the record it finds has that status; otherwise record and history stay as found |
| Condition.ResolveField | pkg/condition/evaluator.go:185-203 | the loop finds what the dotted path leads to |
| Condition.SplitLogicalLoop | pkg/condition/evaluator.go:207-225 | the loop yields the trimmed pieces between operators |
| Condition.EvaluateAndLoop | pkg/condition/evaluator.go:53-68 | the loop is left-to-right short-circuit AND, errors included |
| Condition.EvaluateOrLoop | pkg/condition/evaluator.go:35-50 | the loop is left-to-right short-circuit OR, errors included |
| Condition.ResolveValue | pkg/condition/evaluator.go:143-182 | resolving an operand panics exactly for a lone quote character |
| Comparisons.OperandMeaning | pkg/condition/evaluator.go:143-182 | an operand without quotes is a truth value in any case, else the number it parses to, else what its dotted path leads to, else the context entry |
| Comparisons.QuotedText | pkg/condition/evaluator.go:146-150 | a text in quotes stands for itself |
| Comparisons.NumericAnswer | pkg/condition/evaluator.go:117-125 | evaluating `l op r` between numbers answers how l stands to r, by each of the six operators, NaN and infinities included |
| Comparisons.TextAnswer | pkg/condition/evaluator.go:127-139 | where a side is no number, == and != compare the formatted values and the other operators fail |
| Comparisons.OperandErrors | pkg/condition/evaluator.go:104-115 | a failing left operand is reported before a failing right one |
| Comparisons.LoneOperand | pkg/condition/evaluator.go:90-97 | a lone operand answers by the truth of its value, type by type |
| Comparisons.OperatorPriority | pkg/condition/evaluator.go:71-89 | a text is cut at the first of >=, <=, ==, !=, >, < that splits it |
| Comparisons.Precedence | pkg/condition/evaluator.go:35-68 | AND and OR short-circuit, and AND binds more tightly |
| Condition.ComparisonRoundTrip | pkg/condition/evaluator.go:71-97 | a printed comparison of operands without operator signs is read back: operator and both operands |
| Condition.ComparisonLaws | pkg/condition/evaluator.go:235-252 | the six numeric operators agree with one order, and with NaN all but != are false |
| Condition.ShortCircuitMeaning | pkg/condition/evaluator.go:38-49 | the result is that of the first operand that settles it, or neutral when none does |
| Condition.EvaluateIsMeaningOfParse | pkg/condition/evaluator.go:25-68 | evaluating a text is the short-circuit meaning of the OR-of-ANDs it parses to |
| Condition.PrintThenParse | pkg/condition/evaluator.go:205-232 | a printed formula is read back iff it is unambiguous |
| Condition.PrintThenEvaluate | pkg/condition/evaluator.go:25-67 | evaluating a printed unambiguous formula is its left-to-right short-circuit meaning, errors and panics included |
| Condition.WordFreeIsUnambiguous | pkg/condition/evaluator.go:227-232 | atoms without the words AND and OR make an unambiguous formula |
| Condition.QuotedOperatorSplits | pkg/condition/evaluator.go:205-232 | an operator inside quotes still splits |
| Condition.StableUnderGrowth | pkg/condition/evaluator.go:71-203 | a decided condition stays decided, the same way, when the context gains keys |
| Strings.SplitThenJoin | pkg/condition/evaluator.go:207-225 | the raw parts of a split rejoin to the input and contain no operator |
| Strings.JoinThenSplit | pkg/condition/evaluator.go:207-225 | joined parts are split back iff no operator starts inside a part |
| Idempotency.Idempotent | internal/services/command/execute_workflow.go:138-180 | over all interleavings, at most one execution per key is stored, at most one call launches it, and all callers of a trimmed key get the same one |
| Callers.LoserGetsStored | internal/services/command/execute_workflow.go:1141-1160 | a caller that loses the insert race is given the execution stored under its key, whatever others do in between, and launches nothing |
| Callers.LookupReturnsStored | internal/services/command/execute_workflow.go:1105-1132 | a caller whose key has an execution is given it by the lookup |
| Callers.CreatorLaunches | internal/services/command/execute_workflow.go:171-222 | a caller that creates an execution launches it |
| Callers.KeylessLaunches | internal/services/command/execute_workflow.go:1109-1116 | a caller without a key is never looked up and launches its own execution |
| Callers.RefusedForAReason | internal/services/command/execute_workflow.go:138-180 | in every interleaving, a caller without a key or with a trimmed one is refused only if one of its own steps failed outside |
| Idempotency.UntrimmedDisagrees | internal/services/command/execute_workflow.go:1113-1118 | a key with surrounding white space lets two callers get different executions |
| Idempotency.AgreementIffTrimmed | internal/services/command/execute_workflow.go:1105-1167 | callers of a key agree in every interleaving iff it is trimmed or blank |
| Webhooks.NormalizePathLaws | pkg/webhook/registry.go:48-55 | normalising is idempotent and blind to a missing leading and to trailing slashes |
| Webhooks.RouteKeyIsCanonical | pkg/webhook/registry.go:44-55 | a route has one key however its method is cased and its path slashed |
| Webhooks.NormalizePathMeaning | pkg/webhook/registry.go:48-55 | the normalised path is the path with a leading slash and without its trailing slashes |
| Webhooks.KeysDiffer | pkg/webhook/registry.go:43-46 | for methods without spaces two routes share a key iff methods agree up to case and paths up to slashes |
| Webhooks.SpacedMethodsCollide | pkg/webhook/registry.go:43-46 | a method with a space can take another route's key |
| Webhooks.RoutesOfOne | internal/services/command/activate_workflow.go:189-211 | a node registers the route of its data iff it is a webhook trigger with path and method |
| Webhooks.Registry.Register | pkg/webhook/registry.go:59-73 | a free key gets the route, a taken key keeps its own |
| Webhooks.Registry.Unregister | pkg/webhook/registry.go:76-85 | exactly the routes of the workflow go |
| Webhooks.Registry.Resolve | pkg/webhook/registry.go:89-97 | the route under the normalised key, if any |
| Webhooks.Registry.RegisterWebhookRoutes | internal/services/command/activate_workflow.go:180-227 | all webhook routes are registered iff all keys are free and distinct; otherwise none of this workflow's routes is left |
| Webhooks.Registry.PopulateFromWorkflows | internal/services/webhook_registry.go:16-57 | the routes of active workflows are added in order, and the count is the growth of the registry |
| Webhooks.FirstRouteWins | pkg/webhook/registry.go:65-70 | the first route per normalised key wins |
| Webhooks.Registry.Count | pkg/webhook/registry.go:100-105 | the number of registered routes |
| Webhooks.Registry.PopulateFromPages | internal/bootstrap/config.go:874-913 | however the workflows are split into pages, the registry gains the routes of the whole list up to the first page that fails to load, and the counts of the pages sum to its growth |
| Commands.WorkflowRepository.Update | internal/services/command/workflow_repository.go:32-39 | with an expected status the document is written only if it still has it, without one whenever it exists; which error otherwise |
| Commands.WorkflowRepository.Delete | internal/services/command/workflow_repository.go:41-48 | with an expected status the document is removed only if it still has it, without one whenever it exists; which error otherwise |
| Commands.ActivateWorkflow | internal/services/command/activate_workflow.go:79-175 | succeeds iff structured draft, fitting routes and passing write; otherwise nothing is written, and once it got as far as registering no route of the workflow stays |
| Commands.DeactivateWorkflow | internal/services/command/deactivate_workflow.go:67-123 | the routes go exactly when the write passed |
| Commands.DeleteWorkflow | internal/services/command/delete_workflow.go:68-124 | active workflows are never deleted; a deleted one leaves no routes |
| Commands.MoveToDraftWorkflow | internal/services/command/move_to_draft_workflow.go:56-104 | inactive to draft by check-and-set |
| Commands.UpdateWorkflow | internal/services/command/update_workflow.go:68-161 | only drafts change, only by a passing check-and-set write, to the new data with the metadata entries of the request merged in |
| Commands.ApplyMetadata | internal/services/command/update_workflow.go:137-142 | the loop merges the entries into the metadata and changes nothing else |
| Lifecycle.ActiveIsStructured | internal/services/command/activate_workflow.go:103-153 | in every interleaving, whatever may overlap, a stored active workflow is well-structured |
| Lifecycle.RegistryAgrees | internal/services/command/activate_workflow.go:139-157 | when activations start neither beside activations nor beside commands about to take routes down, every route belongs to a workflow that is active or in flight, and a workflow not in flight has exactly its routes registered when active, none otherwise; restarts included |
| Lifecycle.ActivationAlone | internal/services/command/activate_workflow.go:180-227 | the atomic steps of an uninterrupted activation do what the command promises |
| CommandsAlone.DeactivateAlone | internal/services/command/deactivate_workflow.go:67-123 | uninterrupted, a deactivation makes the workflow inactive and takes its routes down, or does nothing |
| CommandsAlone.DeleteAlone | internal/services/command/delete_workflow.go:68-124 | uninterrupted, a deletion removes a workflow that is not active and its routes, or does nothing |
| CommandsAlone.UpdateAlone | internal/services/command/update_workflow.go:68-161 | uninterrupted, an update replaces a draft and leaves the routes alone |
| CommandsAlone.MoveToDraftAlone | internal/services/command/move_to_draft_workflow.go:56-104 | uninterrupted, an inactive workflow becomes a draft and the routes stay |
| CommandsAlone.StaleWrite | internal/services/command/workflow_repository.go:32-39 | a write whose workflow left the expected status changes nothing but the command |
| Lifecycle.RebuildEqualsIncremental | internal/services/webhook_registry.go:12-57 | with any commands in flight, rebuilding from the stored workflows, in any order, gives the routes of active workflows that the commands have maintained |
| Overlaps.ConcurrentActivationsLoseRoute | internal/services/command/activate_workflow.go:213-218 | two overlapping activations of one workflow can leave it active without its route |
| Overlaps.LateCleanUpLosesRoute | internal/services/command/activate_workflow.go:139-157 | so can an activation that overlaps the cleaning up of an earlier, refused one |
| Overlaps.InStepIffGuarded | internal/services/command/activate_workflow.go:139-157 | over all policies, the registry agrees in every interleaving iff activations start neither beside activations nor beside commands about to take routes down |
| JsonPaths.GetStringAtPathLoop | pkg/transformation/json_helpers.go:15-48 | the loop finds the string at the dotted path |
| JsonPaths.SetReplacesLeaf | pkg/transformation/json_helpers.go:70-97 | where a get succeeds, a set succeeds iff no segment is empty, and only replaces the leaf |
| JsonPaths.AfterSetLeaf | pkg/transformation/json_helpers.go:51-97 | get-after-set returns the new string; paths not through the leaf are unchanged |
| JsonPaths.SetThenGet | pkg/transformation/json_helpers.go:70-97 | setting a value creates what is missing and succeeds iff no key is empty and no plain value is in the way; then the path leads to it and paths off it are unchanged |
| JsonPaths.Without | pkg/transformation/custom_transforms.go:66-73 | exactly the occurrences of the listed characters go |
| JsonPaths.WithoutOfParts | pkg/transformation/custom_transforms.go:66-73 | what is kept stays in order: parts of a string are edited one after the other |
| JsonPaths.ApplyOnLeaf | pkg/transformation/custom_transforms.go:48-185 | a transform is the identity without a string at its path, else it edits that string |
| JsonPaths.TransformMeaning | pkg/transformation/custom_transforms.go:48-185 | a read of the result finds the string with the prefix in front, the suffix behind, in upper or lower case, or without the characters; missing path or parameter refuse |
| JsonPaths.TransformsCommute | pkg/transformation/custom_transforms.go:48-185 | transforms at distinct paths commute on every JSON value |
| JsonPaths.SamePathCommutesIff | pkg/transformation/custom_transforms.go:48-185 | at one path two transforms commute iff their edits do |
| UnknownFields.FindUnknownFields | pkg/net/http/with_body.go:118-140 | the loop collects the difference of each key |
| UnknownFields.CompareFieldValues | pkg/net/http/with_body.go:144-173 | the dispatch on objects, arrays and plain values |
| UnknownFields.CompareSlices | pkg/net/http/with_body.go:176-206 | the loop collects the difference of each index and the surplus |
| UnknownFields.NothingReportedIffIncluded | pkg/net/http/with_body.go:118-206 | nothing is reported iff the original is recursively included |
| UnknownFields.KeyReported | pkg/net/http/with_body.go:118-206 | for each key: reported iff neither numeric zero nor kept; a changed plain value whole, two objects by their difference, two arrays by what differs in order and the surplus |
| UnknownFields.ChangeIsReported | pkg/net/http/with_body.go:118-173 | a changed plain value at any depth outside arrays is reported at its place |
| UnknownFields.IncludedInItself | pkg/net/http/with_body.go:118-206 | everything is included in itself |
| UnknownFields.DeletionsAreReported | pkg/net/http/with_body.go:118-173 | deleting object keys outside arrays reports exactly the deleted fields that are not numeric zero |
| DoubleChecked.OneBreakerPerId | pkg/circuitbreaker/breaker.go:49-80 | over all interleavings at most one breaker is made per id and all callers hold it |
| DoubleChecked.CacheIsFaithful | pkg/transformation/service.go:102-139 | with the cache cleared at any time, a cached transform is a fresh compilation of its spec and failed compilations are never cached |
| DoubleChecked.CallerEnds | pkg/transformation/service.go:102-131 | a caller comes away with the item there is, with the one it builds, or refused iff there is none and none can be built |
| DoubleChecked.FirstLook | pkg/transformation/service.go:102-113 | a caller that finds the item under the read lock has it at once |
| DoubleChecked.ClearEmpties | pkg/transformation/service.go:134-139 | clearing leaves nothing to be found and everything else alone |

## Left out

- Recovery of incomplete executions: it restarts the walk at step 0 on an execution that may already have steps, so the fresh-run properties do not carry over.
- HTTP handlers, the HTTP runner, authentication, the MongoDB and Postgres adapters, bootstrap: I/O and wiring; repositories are replaced by their contracts, under which a write replaces the whole record and an error means that nothing was written.
- Logging, tracing, audit records, clock values and durations: no effect on the modelled state; of completion times only whether they are set is kept.
- Catalog, provider and transformation validation: arbitrary answers; Kazaam and JSON Schema are libraries.
- The circuit breaker library: only its closed, open and half-open contract around the threshold and timeout configured here.
- Float parsing, `%v` formatting, int-to-float rounding and Unicode case mapping of transforms: parameters, arbitrary functions; the sign of zero is not modelled.
- A lone quote character as an operand panics in Go; the condition model has this outcome (`Panics`), while the engine model takes conditions as decided or failing only.
- Engine.Engine.ExecuteExecutorNode: an empty and a nil output map are the same, and error texts are datatypes.
- Commands.UpdateWorkflow: the uniqueness of names is not modelled.
- Atomicity of commands: the load of a workflow and the checks on it are one atomic step, since the checks look at the loaded copy of the workflow; a restart rebuilds the registry before the first command.
- JsonPaths.SetReplacesLeaf: `setNestedValue` is modelled on values; the source changes a freshly decoded tree that nothing else refers to.
- DoubleChecked.OneBreakerPerId: the lock-protected sections are atomic steps of a state machine rather than methods of a class, since the property is about interleavings.
- Webhooks.Registry.Register: upper-casing of methods covers ASCII letters.
- Executor and provider configuration status machines, dashboards, pagination cursors, DTO conversions: each is settled by reading one branch.
