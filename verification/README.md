# AutoBuilder: scheduling, dependency graphs, document normalisers, lifecycle

This project models the parts of AutoBuilder in which many steps have to add up:

- **Dependency graphs.** `Graphs.dfy` defines path, dependency and cycle once. Six algorithms of the
  program are proved against it: the breadth-first guard of `manage_dependencies` (`Dependencies.dfy`),
  the focus loop and the three-colour search of `query_dependency_graph` (`CycleQuery.dfy`), Kahn's
  algorithm in the validator (`DependencyValidator.dfy`) and with a sorted queue in the resolver
  (`DependencyResolver.dfy`), and the search for blocked dependents (`Dependents.dfy`).
  `Agreement.dfy` relates their verdicts.
- **The scheduler.** `Deliverables.dfy` holds the rows and the ready list, `Scheduler.dfy` the batch
  loop with retries, stop conditions and the final skip pass, `Completion.dfy` what a whole run
  guarantees, `Stages.dfy` the stage loop, its close gate and resumption across sessions.
- **Skill cascades.** `Cascades.dfy`: first-in-first-out closure over a reference graph that may be
  cyclic and may dangle.
- **Two document normalisers.** `MergeRuns.dfy` and `Redlines.dfy` rewrite sibling lists and keep what
  the document says (runs and revisions, sections 17.3.2 and 17.13.5 of ECMA-376 Part 1).
- **Pause and resume.** `Lifecycle.dfy`: project status, pause flags and the session queue, stepped by
  users, the Director and the system.

Code that changes things step by step is written as methods with loops, in classes where the program
updates rows or nodes; their contracts are stated by the declarative definitions, and the results over
whole runs are lemmas about those. Where a contract and the code share a computed function, a law states
what that function means by positions, members or cases. Pipeline outcomes, pause requests, costs,
thresholds, validator answers and pending escalations come from `Scheduler.Environment`, whose methods may
return anything; its log ties what the loops record to what was read, in order.

## What the code does not do

- The resolver counts a repeated dependency twice and subtracts it once, so it gives up on an acyclic
  graph with a repeated entry (`Agreement.RepeatedEntryMisleadsResolver`); `TopologicalSort` says
  exactly when it answers.
- The resolver lists a name once for every deliverable that carries it, but counts by name. A repeated
  name with dependencies always makes it give up. A repeated name without dependencies is taken as often
  as it is listed and lowers the count of its dependents each time: names a, a, c, b with b needing a and c
  are answered a, a, b, c (`DependencyResolver.RepeatedNameReleasesEarly`), and a name that needs itself is
  answered too (`DependencyResolver.RepeatedNameHidesCycle`). As long as no name depends on a repeated one
  this cannot happen, and `TopologicalSort` says exactly when it answers and what.
- The insertion guard loads one project, so two accepted ADDs can close a cycle across projects
  (`Dependencies.CrossProjectCycleAccepted`). A run keeps the whole table acyclic exactly when no accepted
  ADD has a target that reaches its source over all projects (`Dependencies.RunKeepsWhole`); runs whose
  ADDs stay inside one project always do (`Dependencies.LocalRunsStayAcyclic`).
- The stage loop passes only PER_TASKGROUP results to a gate that also demands the results of
  PER_DELIVERABLE and PER_BATCH validators. A stage with a required validator on one of those
  schedules can never close (`Stages.EarlierValidatorBlocksForever`). The `build` stage of the shipped
  manifest, app/workflows/auto-code/WORKFLOW.yaml, is such a stage (`Stages.BuildStageStaysOpen`), so no
  project run from it is ever completed by the stage loop (`Stages.AutoCodeNeverCompletes`). The docstring
  of the gate suggests otherwise; the code is followed.
- The comments of `pause_director` and `resume_director` say that the batch loop moves a flagged
  project to PAUSED. No code does. As long as nobody pauses a flagged project with the PM override,
  `resume_director` reactivates nothing (`Lifecycle.WithoutOverrideNothingResumes`,
  `Lifecycle.OverriddenIsResumed`).

## Model

| member | source | states |
|---|---|---|
| Graphs.NoSinkMeansCycle | app/workers/tasks.py:349-361 | a non-empty finite set in which every node depends on a member contains a cycle; the reason an acyclic project always has something at the frontier |
| Graphs.NoSourceMeansCycle | app/workflows/validators.py:249-261 | the dual: a non-empty set in which every node is depended on by a member contains a cycle |
| Graphs.DependenciesFirstIsAcyclic | app/agents/custom/dependency_resolver.py:78-95 | an order that lists each node after its dependencies excludes cycles |
| Ids.TextLeqExactly | app/agents/custom/dependency_resolver.py:84-94 | the order of names is the order of strings: a prefix comes first, otherwise the smaller character at the first difference decides |
| Dependencies.DetectCycle | app/tools/management.py:619-650 | the breadth-first search answers exactly when the target already reaches the source, on any graph including cyclic and dangling ones |
| Dependencies.DependencyStore.ManageDependencies | app/tools/management.py:653-825 | every branch of ADD, REMOVE and QUERY: the response and the whole new table, with the guard stated by reachability |
| Dependencies.AnswerSays | app/tools/management.py:690-825 | only an ADD or REMOVE that is carried out changes the table, and only the source's own list |
| Dependencies.QuerySays | app/tools/management.py:718-726 | QUERY returns the source's list and changes nothing |
| Dependencies.IncompleteCallSays | app/tools/management.py:671-716 | without a target, or for a source that does not exist, nothing changes and the error says which |
| Dependencies.AddSays | app/tools/management.py:729-792 | ADD appends the target at the end, unless it is missing, listed already or refused, and then changes nothing |
| Dependencies.RemoveSays | app/tools/management.py:794-819 | REMOVE takes out the first entry that names the target and keeps the others in order, or reports that there is none |
| Dependencies.EdgeClosesCycle | app/tools/management.py:624-628 | on an acyclic graph a new edge closes a cycle if and only if its target reaches its source |
| Dependencies.RefusedExactlyWhenCyclic | app/tools/management.py:764-776 | in a sound table ADD of a new dependency is refused with CYCLE_DETECTED exactly when accepting it would put a cycle into the project |
| Dependencies.EveryRunStaysSound | app/tools/management.py:745-808 | over every sequence of calls each project's graph stays acyclic and each dependency list stays free of repetition |
| Dependencies.AddThenRemove | app/tools/management.py:778-816 | REMOVE undoes an accepted ADD and restores the table |
| Dependencies.AcyclicWithinProjects | app/tools/management.py:758-764 | when no dependency crosses projects, the whole table is acyclic exactly when every project is |
| Dependencies.AcceptedKeepsWhole | app/tools/management.py:758-782 | an accepted ADD puts a cycle into an acyclic whole table exactly when its target reaches its source along the dependencies of all projects |
| Dependencies.RunKeepsWhole | app/tools/management.py:745-808 | through a whole run the table of all projects stays acyclic exactly when every accepted ADD would have passed a guard over all projects |
| Dependencies.LocalRunsStayAcyclic | app/tools/management.py:745-808 | from a sound table without dependencies across projects, every run whose ADDs stay inside one project leaves the whole table acyclic |
| Dependencies.CrossProjectCycleAccepted | app/tools/management.py:758-764 | a concrete run whose two accepted ADDs make deliverables of different projects depend on each other |
| CycleQuery.DetectGraphCycles | app/tools/management.py:1659-1694 | the iterative search returns true if and only if the graph restricted to the listed nodes has a directed cycle |
| CycleQuery.SearchStep | app/tools/management.py:1679-1692 | one turn keeps the gray nodes equal to the stack and a path, the black nodes closed and ranked, and lowers a lexicographic measure |
| CycleQuery.FocusSet | app/tools/management.py:1628-1639 | the changed-loop ends and computes exactly the weakly connected component |
| CycleQuery.QueryDependencyGraph | app/tools/management.py:1606-1654 | reported nodes are those of the component, reported edges all dependencies among them with none leaving it, and has_cycles answers whether the component contains a cycle |
| DependencyValidator.SortDependentsFirst | app/workflows/validators.py:238-261 | the order holds exactly the nodes that are not on or below a cycle, once each, with nothing before a node that lists it; repeated entries allowed |
| DependencyValidator.DependencyValidation | app/workflows/validators.py:188-297 | all branches; a dictionary passes if and only if no chain of its own lists runs in a circle and every string they hold is a key; the invalid references and the nodes on or below a cycle are named exactly; an acyclic order is a permutation with every node before its dependencies |
| DependencyValidator.GraphOfExactly | app/workflows/validators.py:217-222 | the graph searched has an edge exactly where the dictionary's list holds the string |
| DependencyValidator.TextsConcat | app/workflows/validators.py:217-222 | of a list exactly the strings are read, in order and as often as they are there |
| DependencyValidator.LengthTellsCycle | app/workflows/validators.py:263-263 | comparing the lengths of order and key set decides whether there is a cycle |
| DependencyResolver.TopologicalSort | app/agents/custom/dependency_resolver.py:78-95 | for all inputs the answer is the course that takes the least available name until none is, if it is full; a repeated name with dependencies makes it None; if no name depends on a repeated one, None exactly when the names contain a cycle, a name lists another twice or a repeated name has dependencies, otherwise the lexicographically least of all dependency-respecting orders; distinct names are the special case |
| DependencyResolver.CourseUnique | app/agents/custom/dependency_resolver.py:84-94 | graph and names determine the course, so the answer is fixed for repeated names too |
| DependencyResolver.RepeatedNameReleasesEarly | app/agents/custom/dependency_resolver.py:46-94 | an acyclic input without repeated entries whose answer puts a dependency after its dependent, because a name is listed twice |
| DependencyResolver.RepeatedNameHidesCycle | app/agents/custom/dependency_resolver.py:46-94 | an input with a cycle that is answered, because a name is listed twice |
| DependencyResolver.GreedyIsLeast | app/agents/custom/dependency_resolver.py:84-94 | taking the least available name each time gives an order that no other dependency-respecting order precedes |
| DependencyResolver.SortDecides | app/agents/custom/dependency_resolver.py:95-95 | when nothing is available any more, full length means orderable, in both directions, if no name depends on a repeated one |
| Agreement.VerdictsAgree | app/agents/custom/dependency_resolver.py:78-95 | depth-first search and resolver decide the same as the declarative cycle; with repeated entries the resolver is stricter |
| Agreement.AskAll | app/workflows/validators.py:225-281 | validator, search and resolver run on one graph without repeated entries give one answer |
| Agreement.RepeatedEntryMisleadsResolver | app/agents/custom/dependency_resolver.py:81-94 | an acyclic graph with a repeated entry that the resolver cannot order |
| Deliverables.ReadyBatch | app/workers/tasks.py:336-358 | the in-degree computation yields exactly the actionable deliverables whose dependencies are all satisfied, once each, by execution order (missing counts as zero) and id |
| Deliverables.StatusTable | app/workers/tasks.py:327-343 | which statuses wait, satisfy and are terminal, status by status |
| Deliverables.RanksAreExecutionOrders | app/workers/tasks.py:358-358 | the batch is sorted by execution order, none counting as zero, then by id |
| Deliverables.SelectReadyBatch | app/tools/management.py:148-200 | the tool's batch under its own limit of three, its size, and the number of unsatisfied deliverables |
| Deliverables.ToolAndLoopAgree | app/workers/tasks.py:343-358 | two ready lists of one table are equal exactly when the limits do not separate a failed deliverable whose dependencies are met |
| Deliverables.Progress | app/workers/tasks.py:349-361 | on an acyclic closed table with something unsatisfied and all of it actionable the batch is not empty |
| Dependents.EvaluateFailureImpact | app/agents/supervision.py:492-534 | terminates; blocked is exactly the other deliverables with a dependency path to the failed one; independent is all remaining ones not terminal; every other unfinished deliverable is in exactly one list; both sorted and free of repetition |
| Dependents.FindStuck | app/workers/tasks.py:539-579 | seeds and search find exactly the waiting deliverables with a chain of waiting ones to a permanent failure |
| Dependents.StuckIsLeast | app/workers/tasks.py:554-579 | the skipped set is the least one closed under "waits on a permanent failure or on a skipped one" |
| Dependents.SkippedWithinImpact | app/workers/tasks.py:533-538 | what is skipped is blocked by a permanent failure in the sense of evaluate_failure_impact |
| Dependents.SkippedIsImpact | app/workers/tasks.py:545-584 | the skipped deliverables are all that the failures block if and only if every blocked one is still waiting |
| Scheduler.BatchLoop.AttemptDeliverable | app/workers/tasks.py:380-423 | requires the deliverable to be ready at that moment; the outcome the pipeline gave is stored, the retry counter rises by one exactly on a retried failure, everything else stays |
| Scheduler.AfterSays | app/workers/tasks.py:380-423 | in the log of attempts too: the outcome is stored, a retried failure counted, nothing else changed |
| Scheduler.BatchLoop.RunBatch | app/workers/tasks.py:363-427 | the members of the frontier are attempted in order, each after its own pause check; unless paused, all of them; the outcomes are counted |
| Scheduler.BatchLoop.CloseBatch | app/workers/tasks.py:470-531 | only a batch whose members were all tried is closed; the trailing run of failed batches is compared with the threshold, then the cost is read and compared with the ceiling; a breach suspends the project unless it is over |
| Scheduler.FailureTracker.TrackBatchResult | app/agents/supervision.py:537-571 | the counter equals the number of failed batches at the end of the history, and the threshold is exceeded exactly when that number reaches it |
| Scheduler.TrailingFailuresMeans | app/agents/supervision.py:552-571 | a count of n says the last n batches failed and the one before did not |
| Scheduler.BatchLoop.Run | app/workers/tasks.py:277-598 | the loop terminates; its course is lawful: every batch is the whole ready list of the table the attempts so far have left, is tried in order, closed when complete and followed by a cost check, and nothing follows a stop; it ends at a pause, breach or excess cost or because nothing is ready; the table is what its attempts made of the first one, each started on a deliverable ready in the table of that moment; batches and outcomes are counted exactly; the course is what was read from the environment, reading by reading; a breach suspends the project unless it is over; after an end for want of work exactly the stuck deliverables were skipped |
| Scheduler.LawfulStartsReady | app/workers/tasks.py:327-392 | a course in which batches are ready when they are computed starts every attempt on a deliverable that is ready in the table the attempts before it left |
| Scheduler.ReplayKeepsRow | app/workers/tasks.py:343-392 | for each deliverable attempts made plus attempts left is constant; the retry counter never falls and never rises above the limit; an unattempted row is unchanged |
| Scheduler.AttemptsUseUp | app/workers/tasks.py:315-392 | over the whole table attempts made plus attempts left is constant, the measure that ends the loop |
| Scheduler.SatisfiedStays | app/workers/tasks.py:327-392 | what is completed or skipped at some point of a run is so, unchanged, ever after |
| Scheduler.LastAttemptStands | app/workers/tasks.py:415-423 | the outcome of a deliverable's last attempt is its status from then on |
| Scheduler.RetriesAreCounted | app/workers/tasks.py:380-392 | the retry counter is the initial one plus the attempts, but for the first attempt of a new deliverable |
| Scheduler.AttemptsArePositions | app/workers/tasks.py:363-427 | the count of attempts of a deliverable is the number of places of the log at which it stands; likewise outcomes |
| Scheduler.RestStaysReady | app/workers/tasks.py:363-392 | in every lawful course the members of the open batch that have not been tried are still ready |
| Completion.DependencyOrder | app/workers/tasks.py:327-392 | over the whole run, when the k-th attempt starts every dependency of its deliverable is completed or skipped in the table of that moment, and at every later moment |
| Completion.DependenciesEndedWell | app/workers/tasks.py:327-392 | a deliverable is started only after each dependency was completed or skipped from the start or its last attempt before ended so |
| Completion.FailuresAreRetried | app/workers/tasks.py:343-348 | when a run ends for want of work, each failed attempt was followed by another or has no retry left |
| Completion.AttemptsAreBounded | app/workers/tasks.py:343-392 | no deliverable is attempted more than its remaining retries plus one; the counter is never raised above the limit nor lowered |
| Completion.SessionsResume | app/workers/tasks.py:363-427 | a session interrupted at any point leaves a table the next session can start from |
| Completion.UninterruptedRunFinishes | app/workers/tasks.py:539-589 | on an acyclic closed project with every attempt resolved, an uninterrupted run leaves every deliverable completed, skipped, or failed with no retry left |
| Completion.FinishedPassesGate | app/workflows/validators.py:431-446 | after such a run the status check reports all done and names nothing outstanding |
| Completion.CheckDeliverableStatuses | app/workflows/validators.py:431-446 | all done exactly when every status is terminal; the incomplete ones named are exactly the others |
| Stages.RunScheduledValidators | app/workers/tasks.py:157-203 | one result for each validator of the schedule, of the manifest and all stages in order, with the answer it gave |
| Stages.VerifyTaskgroupCompletion | app/workflows/validators.py:512-562 | the gate passes exactly when statuses are present and terminal, no escalation is pending and, if the current name is a stage, for each of its required validators of the three schedules the last result of that name is a pass; the reasons given are exactly those that hold |
| Stages.LastResultExactly | app/workflows/validators.py:551-558 | the result consulted is the last one of the name, by position, with its own verdict |
| Stages.GateOpensExactly | app/workers/tasks.py:818-833 | with the results the stage loop hands over, the gate opens exactly when the deliverables are terminal, nothing is escalated, the TaskGroup validators passed and the stage requires no validator on an earlier schedule |
| Stages.EarlierValidatorBlocksForever | app/workers/tasks.py:818-842 | in every reachable state a stage that requires a PER_DELIVERABLE or PER_BATCH validator is not completed |
| Stages.BuildStageStaysOpen | app/workflows/auto-code/WORKFLOW.yaml:56-145 | with every deliverable finished, nothing escalated and every result a pass, the gate refuses the build stage of the shipped manifest, which is valid |
| Stages.AutoCodeNeverCompletes | app/workflows/auto-code/WORKFLOW.yaml:56-145 | no sequence of sessions completes more than the first three of its five stages |
| Stages.FinishedStageCloses | app/workflows/validators.py:512-562 | a finished table and passing TaskGroup validators open the gate of any other stage |
| Stages.StageLoop.RunStage | app/workers/tasks.py:652-951 | the batch loop runs a lawful course on the deliverables as they are; the stage closes exactly when that course was not interrupted and the gate passed on the statuses of the deliverables it left |
| Stages.StageLoop.RunSession | app/workers/tasks.py:636-990 | a session is a chain of such stage runs from the first stage not completed, each on the deliverables the one before left, ending at the first that does not close; the closings are exactly those of its runs; the project is marked completed exactly when every stage is |
| Stages.StageLoop.RunSessions | app/workers/tasks.py:636-990 | over any number of sessions, with any change of deliverables and status in between but completion by somebody else: each is such a chain on the deliverables it found, taking up where the completed stages of the one before end; all closings come from these runs; completed stages are a prefix, and the project is marked completed exactly when it is everything |
| Stages.CompletedMeansTerminal | app/workers/tasks.py:796-842 | every stage that got completed in any number of sessions was closed in one of them, by a run of its own batch loop that left every deliverable terminal, with no escalation pending |
| Cascades.SkillLibrary.ResolveCascades | app/skills/library.py:194-238 | terminates on cyclic and dangling references; returns the input followed by exactly the indexed skills reached, once each, in order of cascade depth, and in the order in which the references of the result, read from the front, first name them |
| Cascades.ResolvingTwice | app/skills/library.py:194-238 | resolving a resolved list returns it unchanged |
| Cascades.AddedInOrder | app/skills/library.py:210-236 | a skill met for the first time is never nearer than one added before it |
| MergeRuns.ConsolidateText | app/skills/files/docx/scripts/office/helpers/merge_runs.py:178-199 | the items of a run and its formatting are kept, no two adjacent texts remain, and a run that has none is left alone |
| MergeRuns.MergeIntoKeeps | app/skills/files/docx/scripts/office/helpers/merge_runs.py:159-175 | merging neighbouring runs formatted alike keeps the formatted content and removes one run |
| MergeRuns.Container.MergeRunsIn | app/skills/files/docx/scripts/office/helpers/merge_runs.py:108-125 | the sequence of formatted items is kept; the result counts the runs removed; between two runs whose first property elements agree, or that have none, an element remains, and between two texts of a run something other than whitespace; a container in that form is left alone |
| MergeRuns.NormalExactly | app/skills/files/docx/scripts/office/helpers/merge_runs.py:147-156 | that normal form by positions is the one the comparison of runs and texts leads to |
| MergeRuns.FormattingExactly | app/skills/files/docx/scripts/office/helpers/merge_runs.py:147-156 | the formatting of a run is that of its first property element |
| MergeRuns.MovedConcat | app/skills/files/docx/scripts/office/helpers/merge_runs.py:159-164 | the elements moved are the texts and other elements of the run, in order |
| MergeRuns.MovedOne | app/skills/files/docx/scripts/office/helpers/merge_runs.py:159-164 | of single children, texts and other elements are moved; properties and whitespace are not |
| MergeRuns.NodeSays | app/skills/files/docx/scripts/office/helpers/merge_runs.py:108-125 | the content kept is item by item that of each run under its formatting, and every other element |
| MergeRuns.ChildSays | app/skills/files/docx/scripts/office/helpers/merge_runs.py:178-199 | a text counts as its characters, another element as itself |
| Markup.SpacesExactly | app/skills/files/docx/scripts/office/helpers/merge_runs.py:85-85 | the whitespace that may lie between neighbours is what str.strip removes, character by character |
| MergeRuns.MergeRuns | app/skills/files/docx/scripts/office/helpers/merge_runs.py:29-34 | over all containers of a document: each keeps its meaning and reaches the normal form, one already in it is unchanged; every tree of containers inside containers says what it said; the result is the number of runs removed in all |
| Redlines.MergeIntoKeeps | app/skills/files/docx/scripts/office/helpers/simplify_redlines.py:104-108 | joining two wrappers keeps who changed what in which order and removes one wrapper |
| Redlines.Container.MergeTrackedChangesIn | app/skills/files/docx/scripts/office/helpers/simplify_redlines.py:47-72 | one pass keeps the meaning and the other kind's normal form, counts the wrappers removed, and leaves an element or text between any two wrappers of its kind and one author |
| Redlines.ViewConcat | app/skills/files/docx/scripts/office/helpers/simplify_redlines.py:104-108 | a view shows piece after piece what is untracked or of the kind kept |
| Redlines.ViewOne | app/skills/files/docx/scripts/office/helpers/simplify_redlines.py:104-108 | a single piece is shown unless it is a change of the other kind |
| Redlines.NodeSays | app/skills/files/docx/scripts/office/helpers/simplify_redlines.py:104-108 | the content kept is item by item that of each wrapper with its kind and author, every other element, and text other than whitespace |
| Redlines.Container.SimplifyRedlines | app/skills/files/docx/scripts/office/helpers/simplify_redlines.py:36-38 | both passes keep content with kind and author, hence the accept-all and reject-all views; no mergeable pair of either kind remains; a second run changes nothing |
| Redlines.SimplifyDocument | app/skills/files/docx/scripts/office/helpers/simplify_redlines.py:32-38 | over all paragraphs and cells of a document: each keeps its meaning and reaches the normal form, one already in it is unchanged; every tree of paragraphs inside cells says what it said; the result is the number of wrappers removed in all |
| Lifecycle.PauseLasts | app/workers/lifecycle.py:43-57 | in every honest run after a pause the project stays paused and out of the Director's reach until an operation moves it out; the sessions enqueued for it are exactly as many as the resolutions applied to it and the approval items of it resolved (app/gateway/routes/ceo_queue.py) |
| Lifecycle.PauseThenResume | app/workers/lifecycle.py:43-114 | pausing and resuming gives back the status, drops the flag and enqueues exactly one session, with the resolution handed in |
| Lifecycle.AbortIsFinal | app/workers/lifecycle.py:139-153 | an aborted project stays aborted through every run in which the stage loop does not complete it |
| Lifecycle.Service.PauseDirectorTask | app/workers/lifecycle.py:181-194 | exactly the active projects are flagged, no status changes |
| Lifecycle.Service.ResumeDirectorTask | app/workers/lifecycle.py:223-266 | the loops over paused and active projects leave exactly the state the one-step description gives |
| Lifecycle.Service.PauseAllProjectsTask | app/workers/lifecycle.py:303-313 | exactly the active projects are paused and flagged with the system's reason |
| Lifecycle.Service.ResumeAllProjectsTask | app/workers/lifecycle.py:350-361 | exactly the paused projects are resumed, one session each |
| Lifecycle.Service.ApplyResolutionToProject | app/workers/lifecycle.py:413-466 | the loop over failed deliverables leaves none failed and names exactly those reset; other projects, their flags and deliverables are untouched; exactly one session is enqueued |
| Lifecycle.Service.Serve | app/workers/settings.py:146-159 | the worker's tasks, performed one after another, leave exactly the state that the run of one-step descriptions gives, which the lemmas about runs speak of |
| Lifecycle.ResolutionIsResumable | app/workers/lifecycle.py:413-466 | the batch loop can go on from the project's table: each deliverable that had failed can be attempted retry limit plus one times again, nothing else has changed |
| Lifecycle.DirectorRespectsPauses | app/workers/lifecycle.py:217-247 | in every run, resume_director never reactivates a project paused by pause_project or pause_all_projects, provided no user reason is the Director's marker |
| Lifecycle.DishonestReasonIsResumed | app/workers/lifecycle.py:57-57 | with that marker as a user's reason the pause is undone |
| Lifecycle.WithoutOverrideNothingResumes | app/workers/lifecycle.py:174-247 | in every run without an override pause, resume_director reactivates and enqueues nothing |
| Lifecycle.OverriddenIsResumed | app/tools/management.py:1400-1411 | a flagged project paused by the override is what resume_director does reactivate |
| Lifecycle.DirectorResumed | app/workers/lifecycle.py:223-266 | afterwards no active or paused project carries the Director's flag; exactly the flagged paused projects have become active; no other flag is dropped; each of them got exactly one session, in row order, and nothing else was enqueued |
| Lifecycle.DirectorPaused | app/workers/lifecycle.py:181-194 | exactly the active projects carry the Director's flag afterwards, with the reason or its default kept for the Director; nothing else changes |
| Lifecycle.AllPaused | app/workers/lifecycle.py:303-313 | exactly the active projects are paused and flagged with the reason or its default; nothing else changes |
| Lifecycle.AllResumed | app/workers/lifecycle.py:350-361 | exactly the paused projects become active and lose their flags, with one session each in row order; nothing else changes |
| Lifecycle.FinishedStaysFinished | app/workers/lifecycle.py:30-470 | no operation of the file takes a project out of COMPLETED or ABORTED |

## Left out

- TopologicalSort: when some name depends on a repeated one, the contract fixes the answer but not whether it is an order; that turns on how the names happen to sort.
- Run: writers other than the attempt itself are not modelled during a batch loop; the `update_deliverable` tool could return a BLOCKED deliverable to PENDING, which would defeat any bound.
- RunSession: `verify_stage_completion` is only logged when it fails, so it does not appear; reports, artifacts and checkpoints are left out with it.
- MergeRunsIn: `xml:space`, revision ids and proofing marks are left out, a text element is its characters, and stray text between the children of runs or containers counts as whitespace.
- MergeRuns: an element is known by its xml alone; in the tree of containers two elements that are containers are assumed to be told apart by it. The same holds for SimplifyDocument.
- MergeTrackedChangesIn: the list of wrappers is kept as two positions among the children instead of a separate list of references.
- SearchStep: the stack of pairs is kept as two sequences of equal length.
- Next: each lifecycle operation is one step; the program writes status and flag separately, and interleavings between the two are not modelled. Queries without an order return rows in creation order.
- ManageDependencies: ids are opaque; differently spelled UUIDs of one deliverable, malformed ids and database errors are not modelled.
- VerifyTaskgroupCompletion: a session state whose statuses are not a dictionary is not modelled.
- Database sessions, Redis, events, logging, timestamps and JSON responses.
- The LLM fallback of the resolver, regression runs and the bodies of the other validators.
- `create_edit_taskgroup` and the agent, formation and presentation helpers.
