# Verification of the cwltool workflow engine

This project models the engine of cwltool, the reference runner of the Common Workflow Language
(CWL), in Dafny and proves properties of it: how a workflow graph becomes jobs, how jobs run
concurrently, and how their results are gathered. A tool run is abstracted to "this step, given
these inputs, reports these outputs and a status". `dafny verify dfyconfig.toml` checks all of it.

One module per component:

| file | what it models |
|---|---|
| `Values.dfy` | values, objects, types and statuses |
| `InputAssembly.dfy` | `match_types` and `object_from_state`: how connected sources become an input object |
| `CycleCheck.dfy` | the static circular-dependency check and its depth-first search |
| `Strings.dfy` | searching in strings, distinct strings |
| `Scheduler.dfy` | `WorkflowJob` as a state machine over all interleavings, and confluence |
| `SecondCalls.dfy` | where "the final callback is called exactly once" ends |
| `Progress.dfy` | workflows that pass the static check: no deadlock, existence of the solution, completion and confluence |
| `StaticCheck.dfy` | both halves of the static check in terms of runs |
| `Wiring.dfy` | a static condition under which the steps of a workflow succeed |
| `StepRules.dfy` | what the start, a try, a report, the final callback and a solution are, in plain terms |
| `WorkflowJob.dfy` | the scheduling loop as a class |
| `Scatter.dfy` | `ReceiveScatterOutput`: one collector over every arrival order |
| `CrossProduct.dfy` | the dot, nested and flat products and their index arithmetic |
| `ScatterTree.dfy` | nested scattering as a tree of collectors, and its agreement with the flat product |
| `LoopStep.dfy` | `WorkflowJobLoopStep` as the refinement of a fold |
| `LoopRules.dfy` | what one iteration's status and the next job order are, in plain terms |
| `Executor.dfy` | `MultithreadedJobExecutor`: sizing, greedy admission, resource accounting |
| `CudaDrift.dfy` | when the count of CUDA devices is conserved, and when the devices suffice |
| `TaskQueue.dfy` | `TaskQueue` as a concurrent step system |
| `CacheProtocol.dfy` | the job cache shared by processes under `flock`, with the non-atomic lock upgrade |
| `Mutation.dfy` | `MutationManager` over traces of calls |
| `DirectoryMerge.dfy` | `nestdir` and `mergedirs` |
| `Staging.dfy` | `uniquename` and the conflict repair of `stage_files` |
| `BindingOrder.dfy`, `Decimal.dfy` | `cmp_like_py2` and the decimal texts it compares |
| `CheckDigit.dfy` | the ISO/IEC 7064 MOD 11-2 check |

Code that updates objects is a class or a method with loops, tied by its `ensures` to a function
over values (for instance `WorkflowJob.ReceiveOutput` to `Received`); the properties are then
proved about those functions, and about the step relations built from them. What such a function
computes is stated once more without it, in predicates and lemmas named `...Rule` and `...ByRule`. Concurrency is a
relation `Next` between states; a run is any sequence of such steps, so a property of every run
holds for every schedule.

## Where a natural claim is stronger than the code

Each of these is proved with a concrete execution or as an exact condition.

- A dotproduct or nested collector calls back a second time, with the same contents, exactly when
  all of its `n > 0` items were skipped while it was built (`Scatter.FiringCount`,
  `ScatterTree.NestedFiringCount`). The flat collector never does. The second report changes
  nothing in the workflow, except that the final callback is called again if it came from the
  last step (`SecondCalls.SecondReport`); so a run of a workflow
  with a solution calls it twice exactly when the step that completes last reports twice
  (`SecondCalls.LastReportDecides`).
- With jobs running in parallel, a failing run can call the final callback twice: once when the loop
  gives up and once when the last running step reports (`SecondCalls.FailingRunCallsTwice`). It can
  exactly when every step was running or completed at that moment (`SecondCalls.SecondCallIff`).
- CUDA devices are charged under `cudaDevices` but checked and released under `cudaDeviceCount`.
  Ram and cores are conserved; CUDA devices are exactly when no job that can start differs
  under the two keys (`CudaDrift.CudaConservedIff`). The running jobs never ask for more devices
  than the host has exactly when no job that can start is charged for fewer than it asks for, or
  when no jobs that fit together otherwise ask for too many (`CudaDrift.CudaCapacityIff`);
  `CudaDrift.CudaOvercommitted` is a run in which they do.
- The status of a scatter, unless an item failed permanently, is that of the last report that was
  not a success. It depends on the arrival order exactly when such reports differ
  (`Scatter.StatusOrderIff`), and a skipped item that reports last hides every temporary failure
  (`Scatter.SkipHidesFailures`).
- The status file of the cache is not cleared before the directory is removed. A process that
  dies while it rebuilds the cache leaves it clean exactly unless its job was running, or had
  failed, while the file still said success (`CacheProtocol.CrashIffExposed`); after such a crash
  every process that has not started can go on to use the directory, which nobody vouches for
  (`CacheProtocol.ExposedCrashMisleads`), and `CacheProtocol.CrashBreaksCache` is a whole run in
  which a third process does. Safety is proved for all runs with any other crashes.
- `cmp_like_py2` is an order exactly on string components that cut the integers in two, which can
  be read off their first characters (`BindingOrder.OrderIff`, `BindingOrder.CutIff`); parameter
  names do, and 9, 10, "1a" run in a circle.
- `nestdir` and `mergedirs` keep every file at its relative path exactly when no file's path runs
  through another file (`DirectoryMerge.BuildTree`).
- MOD 11-2 misses a swap of two different digits exactly when their distance is a multiple of 10
  (`CheckDigit.SwapDetected`).

## Model

| member | source | states |
|---|---|---|
| `InputAssembly.MatchTypes` | cwltool/workflow_job.py:324-371 | a source contributes exactly once if some pair of alternatives of the two unions fits and not at all otherwise: alone it is the value, under `merge_nested` the next element, under `merge_flattened` its elements, or itself if it is no list; its declared type, overwritten during the search, is restored on every normal return |
| `InputAssembly.FitsByRule` | cwltool/workflow_job.py:332-371 | two types match exactly if one alternative of the source may go to one of the sink, each alternative of the unions being tried; always under a link merge or `valueFrom` |
| `InputAssembly.LinkSources` | cwltool/workflow_job.py:395-425 | the connection loop gives the merge of the gathered values, or the first obstacle in connection order (type mismatch, missing source, awaited source), and leaves the state as it was |
| `InputAssembly.PickFrom` | cwltool/workflow_job.py:427-456 | the three `pickValue` loops give the first non-null value, the only one, or all, and raise on none or several |
| `InputAssembly.PicksByRule` | cwltool/workflow_job.py:427-456 | the picked value stands at the first place that is not null, is refused if there is none, for the only one also if there are two; all non-null values are kept in order, each at the number of non-null ones before it |
| `InputAssembly.SettleParam` | cwltool/workflow_job.py:427-465 | the linked value stays whatever the default is, unless it is null; a list is picked from first; without a link the default, else null for `valueFrom` or an incomplete state, else "not specified" |
| `InputAssembly.SettlesByRule` | cwltool/workflow_job.py:427-465 | pick, default and null as one rule on the linked value |
| `InputAssembly.ObjectFromState` | cwltool/workflow_job.py:374-466 | the method returns the object, the "not ready" or the exception that the assembly function defines, and leaves the state unchanged unless it raises |
| `InputAssembly.AssembleExact` | cwltool/workflow_job.py:374-466 | an input object is produced exactly when every parameter has a value, and it holds one entry per parameter and nothing else |
| `InputAssembly.AssembledByRule` | cwltool/workflow_job.py:374-466 | an assembled object holds for each parameter what linking its source values, picking and the default give, and all its sources were usable |
| `InputAssembly.OneSource` | cwltool/workflow_job.py:395-459 | one usable, fitting source without merge and pick gives its value whatever the default is; the default only for null |
| `InputAssembly.NoSource` | cwltool/workflow_job.py:458-465 | without a source the default, else null under `valueFrom` or in an incomplete state, else "not specified" |
| `InputAssembly.FirstObstacle` | cwltool/workflow_job.py:395-425 | the first source that is unknown, awaited or does not fit decides which exception or wait it is; several sources without the feature raise first |
| `InputAssembly.UnknownMerge` | cwltool/workflow_job.py:345-366 | an unknown `linkMerge` raises with the first source that fits |
| `InputAssembly.FirstBad` | cwltool/workflow_job.py:374-466 | the first parameter without a value decides between the exception and waiting |
| `InputAssembly.IncompleteSlot` | cwltool/workflow_job.py:407-425 | in an incomplete state the sources that have values count, in connection order |
| `InputAssembly.GatherExact` | cwltool/workflow_job.py:400-425 | when all sources are available and fit, the gathered values are the source values, each once, in connection order |
| `InputAssembly.LinksByRule` | cwltool/workflow_job.py:324-371 | usable, fitting sources are linked to the single value, the list of values or their flattening, as `linkMerge` and their number say |
| `InputAssembly.MergedAlwaysFits` | cwltool/workflow_job.py:332-358 | with a link merge any two types with at least one alternative match, so a merge never fails on types |
| `InputAssembly.MergeEachSourceOnce` | cwltool/workflow_job.py:345-359 | with inhabited types, a merged input is the list of the source values in connection order, or the list in which element j of list source i stands j places behind the summed lengths of the sources before it and a source that is no list stands itself |
| `InputAssembly.FlattenConcat` | cwltool/workflow_job.py:351-355 | flattening distributes over concatenation, so the order of sources is the order of their elements |
| `InputAssembly.Flattens` | cwltool/workflow_job.py:351-355 | the flattening is as long as its sources together, a value that is no list counting one, with every element at the place its source and index give |
| `InputAssembly.AssembleMonotone` | cwltool/workflow_job.py:400-425 | once a step's inputs are decided, assembled or rejected, later outputs of other steps change nothing |
| `InputAssembly.NotReadyAwaits` | cwltool/workflow_job.py:424-425 | a step is held back only by a known source that is still awaited |
| `CycleCheck.FieldBelongsToStep` | cwltool/checker.py:550-556 | the id of a step is recovered from every field id of the form step, slash, name |
| `CycleCheck.FieldBelongsToDocument` | cwltool/checker.py:550-556 | a field with no slash behind the number sign belongs to its document |
| `CycleCheck.GetDependencyTree` | cwltool/checker.py:511-528 | the adjacency lists are exactly the links of the step inputs, closed, with every linked step a vertex |
| `CycleCheck.CycleFinder.ProcessDfs` | cwltool/checker.py:531-547 | the search terminates, pops its tip once processed, only adds to its records, and keeps that every record is a real cycle and, with none recorded, that the processed list is reverse topological |
| `CycleCheck.CheckCircularDependencies` | cwltool/checker.py:490-508 | accepted if and only if the graph has no cycle; every recorded list is a cycle; if accepted, the processed list is a reverse topological order of exactly the vertices |
| `CycleCheck.CircularDependencyChecker` | cwltool/checker.py:490-528 | the check on step inputs accepts exactly when no steps depend on each other in a ring, and then leaves an order in which every step ranks below the steps it consumes |
| `CycleCheck.WalkDescends` | cwltool/checker.py:531-547 | along every walk the rank in a reverse topological order does not increase |
| `CycleCheck.OrderedIsAcyclic` | cwltool/checker.py:531-547 | a complete reverse topological order rules out every cycle, so an empty record proves acyclicity |
| `Scheduler.RecordedStands` | cwltool/workflow_job.py:554-561 | a report that ends usable has recorded every output with its value, type and status |
| `Scheduler.ReceivedSound` | cwltool/workflow_job.py:546-581 | receiving the report of an incomplete step keeps the scheduler invariant and only adds to the state |
| `Scheduler.TriedSound` | cwltool/workflow_job.py:583-762 | trying any step, ready or not, skipped, failing or started, keeps the invariant and only adds to the state |
| `Scheduler.NextSound` | cwltool/workflow_job.py:772-855 | every step of any execution keeps the invariant |
| `Scheduler.RunSound` | cwltool/workflow_job.py:772-855 | in every state of every run, failing or not, completed and running steps are disjoint, running steps run on their final inputs, and without a failure each completed step is settled |
| `Scheduler.RunFollows` | cwltool/workflow_job.py:546-581 | if the dataflow equations have a solution, every state of every run agrees with it and no run fails |
| `Scheduler.SuccessSolves` | cwltool/workflow_job.py:772-855 | a successful run ends in a solution of the dataflow equations, and that solution is unique |
| `Scheduler.Confluence` | cwltool/workflow.py:103 | of any workflow, checked or not, with steps that report once each: if one run succeeds then, for any order of the steps and any interleaving, no run fails, all runs end in the same state, and the final callback is called exactly once with the same output (a step that reports twice is `SecondCalls.SecondReport`) |
| `SecondCalls.SecondReport` | cwltool/workflow_job.py:546-581 | a second identical report leaves state, running and completed steps alone; the final callback is called again exactly if all steps are completed |
| `SecondCalls.LastReportDecides` | cwltool/workflow_job.py:579-581 | over runs in which some steps report twice: a run that completes all steps of a workflow with a solution ends in it, with the step that completes last, and has called the final callback twice if that step reports twice, else once; earlier double reports leave no trace |
| `SecondCalls.NobodyTwice` | cwltool/workflow_job.py:546-581 | without steps that report twice these are the runs of the scheduler |
| `SecondCalls.FailingRunCallsTwice` | cwltool/workflow_job.py:842-852 | a run of two steps, one failing, that calls the final callback twice |
| `SecondCalls.AfterLeaving` | cwltool/workflow_job.py:579-581 | after the loop was left early, one call stands until all steps are completed and two afterwards, and no further step starts |
| `SecondCalls.SecondCallIff` | cwltool/workflow_job.py:579-581 | a second final callback is possible exactly when every step was running or completed when the loop was left |
| `Progress.OwnerRanksHigher` | cwltool/checker.py:511-528 | in an accepted workflow the step that owns a source ranks above the step that consumes it |
| `Progress.NoDeadlock` | cwltool/workflow_job.py:805-848 | while steps are incomplete and nothing failed, a step is running or has all its inputs decided: the accepted order excludes mutual waiting |
| `Progress.SolutionExists` | cwltool/checker.py:490-528 | if the static check accepts the workflow and each step succeeds on its own, the dataflow equations have a solution |
| `Progress.SolutionsAgree` | cwltool/workflow_job.py:772-855 | an accepted workflow has at most one solution |
| `Progress.NeverStuck` | cwltool/workflow_job.py:805-848 | where a run of an accepted workflow with succeeding steps stands, before completion, the scheduler can start a step or complete one |
| `Progress.EveryRunCompletes` | cwltool/workflow_job.py:772-855 | every run of an accepted workflow with succeeding steps, wherever it stands, can be continued to completion of all n steps, in the one solution and with one final callback, within 2n steps less the work done |
| `Progress.SolvedRunCompletes` | cwltool/workflow_job.py:772-855 | so can every run of an accepted workflow whose equations have a solution, whatever its steps do elsewhere |
| `Progress.AcyclicConfluence` | cwltool/workflow.py:103 | an accepted workflow with succeeding steps that report once each has exactly one solution, and for any order of its steps and any interleaving no run fails, all end in it, and the final callback is called exactly once with its output |
| `Progress.ReachedByRun` | cwltool/workflow_job.py:772-855 | what the state machine can reach from the start is the end of a run |
| `StepRules.StartsByRule` | cwltool/workflow_job.py:778-803 | the start raises exactly if some input has neither a value in the job order nor a default; else each input has the former, or without it the latter, every step output is blank, and nothing has run |
| `StepRules.RecordsByRule` | cwltool/workflow_job.py:554-561 | each reported output stands with its value, type and the status as of then, a missing one stays as it was and turns the status into permanent failure, and nothing else changes |
| `StepRules.ReportsByRule` | cwltool/workflow_job.py:546-581 | after a report the step is completed and the workflow's status is kept if the report is usable or the status permanent failure, else taken from it; with the last step the final callback follows |
| `StepRules.TriesNothing` | cwltool/workflow_job.py:583-608 | a submitted step, or one that waits for a source, is left alone |
| `StepRules.TriesInVain` | cwltool/workflow_job.py:601-606 | a step that cannot be made into a job only fails the workflow |
| `StepRules.TriesToRun` | cwltool/workflow_job.py:583-762 | a step that runs will report what its job gives, and nothing else changes |
| `StepRules.SkipsByRule` | cwltool/workflow_job.py:735-753 | a step whose `when` is false is completed at once with null for every output, or the empty list exactly for a step that lists when skipped, and fails nothing |
| `StepRules.CallsByRule` | cwltool/workflow_job.py:503-544 | the callback is appended, with the collected outputs and the status, or with none and permanent failure if collecting raises |
| `StepRules.OutputsCollected` | cwltool/workflow_job.py:503-544 | with known, fitting sources the final callback carries an object with exactly the outputs' short names, each with what its sources, the pick and the default give |
| `StepRules.SingleOutput` | cwltool/workflow_job.py:503-544 | an output with one source carries that source's value, or its default if that is null |
| `StepRules.FailedOutput` | cwltool/workflow_job.py:512-515 | an output that raises leaves the callback without outputs, as a permanent failure |
| `StepRules.CompleteOutputs` | cwltool/workflow_job.py:772-855 | a run that completed in a solution has called back once, with exactly those outputs and success |
| `StepRules.SolutionValues` | cwltool/workflow_job.py:583-762 | in a solution each step's outputs are what it reports on its inputs; those of a skipped step null, or the empty list if it lists when skipped |
| `StaticCheck.RingNeverStarts` | cwltool/checker.py:490-528 | no step on a ring of dependencies ever starts, in any run, failing or not |
| `StaticCheck.RejectedNeverCompletes` | cwltool/checker.py:490-528 | so no run of a rejected workflow completes all steps |
| `StaticCheck.CheckDecides` | cwltool/checker.py:490-528 | if each step succeeds on its own, the check accepts exactly the workflows that some run completes |
| `Wiring.WiredSucceeds` | cwltool/workflow_job.py:374-466 | a static condition for succeeding: sources that exist and fit by their declared types, a known merge, no `pickValue` that depends on nulls, and tools that always report well; then no assembly of inputs ever raises |
| `Wiring.ChainSucceeds` | cwltool/checker.py:490-528 | two steps of any names, one consuming the other's output, meet all hypotheses of the progress theorems |
| `WorkflowJobs.TurnFacts` | cwltool/workflow_job.py:808-840 | one turn of the sequential loop completes its step, or leaves it waiting or stuck and changes nothing that other steps wait for |
| `WorkflowJobs.TurnReaches` | cwltool/workflow_job.py:808-840 | a turn is made of steps of the state machine |
| `WorkflowJobs.WorkflowJob.DoOutputCallback` | cwltool/workflow_job.py:503-544 | collects the outputs from whatever is there and calls the final callback once, with what `StepRules.CallsByRule` and `StepRules.OutputsCollected` say; an exception becomes a permanent failure without outputs |
| `WorkflowJobs.WorkflowJob.RecordOutputs` | cwltool/workflow_job.py:554-561 | outputs enter the state with the status as of then; a missing one turns the status into permanent failure |
| `WorkflowJobs.WorkflowJob.ReceiveOutput` | cwltool/workflow_job.py:546-581 | the new fields are those of the state machine's report step, the step is completed, progress is noted |
| `WorkflowJobs.WorkflowJob.TryMakeJob` | cwltool/workflow_job.py:583-762 | the new fields are those of the state machine's try step, which `StepRules` says case by case; progress is noted exactly if a step completed |
| `WorkflowJobs.WorkflowJob.GivenInputs` | cwltool/workflow_job.py:788-799 | each input comes from the job order, else from its default; an exception exactly if one has neither |
| `WorkflowJobs.WorkflowJob.Start` | cwltool/workflow_job.py:778-803 | the loops leave the initial state of the state machine, with every step output blank, and the invariant of the loop |
| `WorkflowJobs.WorkflowJob.RunPass` | cwltool/workflow_job.py:806-840 | one pass gives each step its turn in order, with `on_error: stop` only up to the first state that is no success; it completes at least one more step whenever the equations have a solution, and in any case unless something failed; a full pass without progress leaves every incomplete step stuck |
| `WorkflowJobs.WorkflowJob.RunPasses` | cwltool/workflow_job.py:805-848 | the loop completes all steps, one pass per completed step at most, and always does if the equations have a solution; it gives up only after a failure, and with `on_error` continue only when no incomplete step can be started |
| `WorkflowJobs.WorkflowJob.Job` | cwltool/workflow_job.py:772-855 | on an accepted workflow the loop never stalls, needs at most n passes, calls back exactly once and ends where the state machine can; if each step succeeds, or the equations have a solution F, it completes all steps, in F, with the output of F |
| `Scatter.ReceiveScatterOutput.ReceiveOutput` | cwltool/workflow_job.py:95-113 | the key-by-key loop has the effect of the collector's report step: values placed, status latched, item counted once, callback on reaching the total |
| `Scatter.ReceiveScatterOutput.SetTotalItems` | cwltool/workflow_job.py:115-128 | sets the total and calls back if it is already reached |
| `Scatter.PlayFires` | cwltool/workflow_job.py:109-113 | over any sequence of reports, repeats included, the callback fires once if the number of distinct items passes to the total, else never |
| `Scatter.FiringCount` | cwltool/workflow_job.py:109-128 | over any split into early and late reports: no call while an item is missing, two calls exactly when `n > 0` items all reported before `setTotal` to a collector created with total n, else one |
| `Scatter.RepeatedReport` | cwltool/workflow_job.py:95-113 | receiving the same report again changes nothing, so an outer collector counts an inner one once |
| `Scatter.FiresFinal` | cwltool/workflow_job.py:112-128 | with one report per item every call of the callback carries the final contents and status |
| `Scatter.GatheredOutputs` | cwltool/workflow_job.py:97-98 | in every arrival order each item's outputs end at its own index and all other places are null |
| `Scatter.GatheredStatus` | cwltool/workflow_job.py:105-107 | the final status is permanentFail exactly when one item's was, success exactly when all were, and otherwise that of the last report that was not a success |
| `Scatter.StatusOrderIff` | cwltool/workflow_job.py:105-107 | the status is the same for every arrival order exactly if an item failed permanently or all items that did not succeed report the same status |
| `Scatter.SkipHidesFailures` | cwltool/workflow_job.py:105-107 | a skipped item that reports last makes the status usable whatever temporary failures came before |
| `CrossProduct.CrossproductSize` | cwltool/workflow_job.py:212-221 | the recursive sum is the product of the lengths |
| `CrossProduct.FlatScatter` | cwltool/workflow_job.py:242-277 | the callback indices are exactly 0, ..., product - 1 in row-major order, and job j gets the mixed-radix elements of j |
| `CrossProduct.FlatJobsExact` | cwltool/workflow_job.py:242-277 | the nested recursion lists exactly product many jobs, the j-th being the job at index j |
| `CrossProduct.JobAtDigits` | cwltool/workflow_job.py:257-259 | the job at index j takes for every scattered key the element at its digit and keeps every other entry |
| `CrossProduct.DigitsOfIndex` | cwltool/workflow_job.py:242-277 | the digits of an index are its mixed-radix representation: they compute back to the index |
| `CrossProduct.NestedByDigits` | cwltool/workflow_job.py:167-209 | the nested result has one level of lists per key, each as long as its key's value, and the value of job j stands at the digits of j |
| `CrossProduct.DotScatter` | cwltool/workflow_job.py:280-321 | refused exactly when two lists differ in length, else one job per position, with every scattered key's element at that position and every other entry kept |
| `CrossProduct.NestedFlattensToFlat` | cwltool/workflow_job.py:167-277 | flattening the nested result by one level less than there are keys gives the flat result |
| `ScatterTree.DeliverValid` | cwltool/workflow_job.py:95-113 | a report by any pending job keeps every collector in agreement with its children, firing exactly when they are all done |
| `ScatterTree.BuildValid` | cwltool/workflow_job.py:167-209 | the tree as built, with jobs already skipped, has that agreement and the shape of the scattered lists |
| `ScatterTree.ReportIsTruthful` | cwltool/workflow_job.py:112-113 | a finished inner collector reports its gathered outputs and a status that tells full success and some permanent failure |
| `ScatterTree.NestedFiringCount` | cwltool/workflow_job.py:180-209 | after all jobs reported, in any order, the root has called back twice if a non-empty scatter was skipped entirely while built, else once |
| `ScatterTree.NestedScatterGathers` | cwltool/workflow_job.py:167-209 | in every arrival order the root gathers the nested result, every callback carries it, and the status tells success and permanent failure |
| `ScatterTree.NestedStatusExact` | cwltool/workflow_job.py:105-107 | the status of the nested scatter is success exactly if no job is skipped and every one succeeds, permanent failure exactly if some job that was run fails so |
| `ScatterTree.JobOutputs` | cwltool/workflow_job.py:180-209 | a skipped job contributes null, any other what it reports, with null for a missing output |
| `ScatterTree.SomeLeaf` | cwltool/workflow_job.py:131-164 | as long as the tree is not done some job can still report |
| `ScatterTree.CrossProductsAgree` | cwltool/workflow_job.py:167-277 | what the flat scatter gathers, in any order of reports, is the flattened nested result, with exactly one callback |
| `LoopStep.CollectGrows` | cwltool/workflow_job.py:957-984 | if no output is missing, each is buffered exactly once and the reported status stands |
| `LoopStep.BufferExact` | cwltool/workflow_job.py:963-974 | after n iterations that went on the buffer holds exactly the n outputs in order, or the last one |
| `LoopStep.WorkflowJobLoopStep.LoopCallback` | cwltool/workflow_job.py:945-1060 | the callback advances buffer, status and job order by one step of the fold, whose next order `LoopRules.OrderByRule` describes; an exception leaves the order and makes the status permanent failure |
| `LoopRules.OrderByRule` | cwltool/workflow_job.py:1003-1053 | the next order has the old keys and those of the loop sources; a source has what its reported outputs are linked to after pick and default, or what `valueFrom` makes of that and the old order; other keys keep their values |
| `LoopRules.SingleSource` | cwltool/workflow_job.py:1008-1053 | a source with one output has the value the iteration reported for it, the default if that is null, after `valueFrom` on the old order |
| `LoopRules.IterationStatus` | cwltool/workflow_job.py:957-987 | the status of an iteration is the reported one, permanent failure if an output is missing |
| `LoopRules.FirstMissing` | cwltool/workflow_job.py:1008-1029 | the first source without a value decides: an output that was not reported raises the workflow's exception, one reported with a failing status another one |
| `LoopRules.ExpressionsNeedFeature` | cwltool/workflow_job.py:1030-1042 | an expression without the feature for it raises |
| `LoopStep.WorkflowJobLoopStep.Round` | cwltool/workflow_job.py:896-927 | one round goes on exactly when `when` holds and the iteration neither fails nor raises, and says how the loop ends otherwise |
| `LoopStep.WorkflowJobLoopStep.Job` | cwltool/workflow_job.py:881-943 | the loop refines the fold: n iterations on the k-fold updates of the first order, outputs buffered in order, one callback with the last status; a failing iteration or a caught exception gives one failing call, any other exception none |
| `Executor.ScanSplits` | cwltool/executors.py:370-433 | an undisturbed scan splits the pending jobs into started and remaining ones, both in order |
| `Executor.ScanMaximal` | cwltool/executors.py:370-433 | after it no remaining job would fit |
| `Executor.ScanAdmits` | cwltool/executors.py:381-400 | only a job larger than the host is rejected, and an idle host starts at least one pending job |
| `Executor.ScanInOrder` | cwltool/executors.py:370-433 | one more job at the end is started exactly if it fits beside all that was allocated before, and remains behind the others if not |
| `Executor.ScanEndsAtTooBig` | cwltool/executors.py:381-398 | the scan ends at the first job larger than the host: that one is dropped, those behind it remain |
| `Executor.MultithreadedJobExecutor.SelectResources` | cwltool/executors.py:296-321 | raises exactly when some minimum exceeds the host; else each resource is the maximum rounded up, capped by the host, and at least the minimum; temporary and output space are the minima rounded up |
| `Executor.SizedNeverRejected` | cwltool/executors.py:381-400 | a job sized that way never meets the "cannot be run" rejection |
| `Executor.MultithreadedJobExecutor.RunJob` | cwltool/executors.py:360-433 | the in-place loop over the pending list has the effect of the greedy scan on pending jobs, allocation and queue |
| `Executor.RunAccounted` | cwltool/executors.py:346-433 | completions may interleave with a scan at every step, and the ledger stays balanced in every reachable state |
| `Executor.Conservation` | cwltool/executors.py:346-358 | in every reachable state ram and cores are the sums over running jobs, within the host, zero when none runs; CUDA is charged less released |
| `CudaDrift.CudaConservedIff` | cwltool/executors.py:427-428 | CUDA devices are conserved over all runs exactly when every job that can start has equal amounts under both keys |
| `CudaDrift.CudaCapacityIff` | cwltool/executors.py:381-428 | over all runs the running jobs stay within the host's devices exactly when no job that can start is charged for fewer than it asks for, or no jobs that fit together by ram and cores ask for too many |
| `CudaDrift.CudaOvercommitted` | cwltool/executors.py:354-357 | a run in which two jobs that each ask for the only device run together |
| `TaskQueue.NextKeeps` | cwltool/task_queue.py:52-121 | every step of any thread keeps the counters, the order and the history consistent |
| `TaskQueue.RunKeeps` | cwltool/task_queue.py:52-121 | in every reachable state `in_flight` is added plus queued plus running plus drained, tasks leave in the order they came, the queue is bounded |
| `TaskQueue.EachTaskOnce` | cwltool/task_queue.py:52-114 | each queued task is still queued, was run, or was drained: exactly one of these, once |
| `TaskQueue.AllExited` | cwltool/task_queue.py:116-121 | when all workers have exited after `join`, the queue is empty and only drained tasks are still counted |
| `CacheProtocol.ExclusiveStepSafe` | cwltool/command_line_tool.py:976-1004 | every step of the process that rebuilds the cache keeps the protocol invariant |
| `CacheProtocol.SharedStepSafe` | cwltool/command_line_tool.py:950-976 | every step outside the exclusive section, the lock upgrade included, keeps it |
| `CacheProtocol.RunSafe` | cwltool/command_line_tool.py:950-1004 | the invariant holds in every run of any number of processes, with every crash that `CrashIffExposed` does not name |
| `CacheProtocol.CachedIsComplete` | cwltool/command_line_tool.py:960-970 | whoever takes the cached branch sees a directory completely written by a run that reported success |
| `CacheProtocol.CachedIsStable` | cwltool/command_line_tool.py:960-970 | that directory does not change until the lock is released |
| `CacheProtocol.OneWriter` | cwltool/utils.py:284-289 | at most one process is between the removal of the directory and the status write |
| `CacheProtocol.CrashIffExposed` | cwltool/command_line_tool.py:976-1000 | a process dying anywhere between the removal and the status write leaves the cache clean exactly unless its job was running or had failed under a status file that still said success |
| `CacheProtocol.ExposedCrashMisleads` | cwltool/command_line_tool.py:960-985 | after an exposed crash any process that has not started can go on at once to use the directory, which no successful run vouches for |
| `CacheProtocol.CrashBreaksCache` | cwltool/command_line_tool.py:982-985 | a run with one crash after which a process uses a directory whose run never reported |
| `Mutation.MutationManager.RegisterReaderOf` | cwltool/mutation.py:32-47 | refuses another generation than the current one, else appends the step to the readers |
| `Mutation.MutationManager.ReleaseReaderOf` | cwltool/mutation.py:49-63 | refuses another generation, fails for a step that is not reading, else removes its first registration |
| `Mutation.MutationManager.RegisterMutationOf` | cwltool/mutation.py:65-86 | refuses while there are readers or for another generation, else starts the next generation |
| `Mutation.MutationManager.SetGeneration` | cwltool/mutation.py:88-92 | a freshly stamped object is accepted for reading |
| `Mutation.GenerationCounts` | cwltool/mutation.py:65-86 | over every trace a location's generation is the number of its successful mutations |
| `Mutation.ReadersCount` | cwltool/mutation.py:32-63 | a step is registered as often as it registered and did not release |
| `Mutation.NoReaderSpansMutation` | cwltool/mutation.py:71-76 | a mutation succeeds only when no registration is open across it |
| `Mutation.StaleIsRefused` | cwltool/mutation.py:32-86 | once overtaken, a generation is never accepted again, whatever happens in between |
| `Mutation.StaysReading` | cwltool/mutation.py:32-86 | from registration to release the reader stays registered and the generation stays put |
| `Mutation.MatchingRelease` | cwltool/mutation.py:49-63 | the first release that matches a registration never raises |
| `Mutation.OutcomesExact` | cwltool/mutation.py:32-86 | each call succeeds exactly under a condition on the history alone, mutations so far and open registrations, and raises the "not reading" error exactly under its own; what raises changes nothing |
| `DirectoryMerge.Pool` | cwltool/process.py:1188-1205 | refused exactly if a name has two locations; else the first entry of each name remains, in order, with the listings of all directories of its name one after the other, and all nodes are kept |
| `DirectoryMerge.MergeDirs` | cwltool/process.py:1188-1210 | unless a name is both file and directory: raises exactly when a path has two locations, else the same nodes at the same paths; always unique basenames at every level and no deeper than before |
| `DirectoryMerge.NestDir` | cwltool/process.py:1166-1185 | the pop loop wraps the object in one directory per component, innermost first; an object outside the base is left alone |
| `DirectoryMerge.BaseDirRule` | cwltool/process.py:1166-1172 | the base is the directory part with one slash, the root for a path without slashes |
| `DirectoryMerge.WrapNodes` | cwltool/process.py:1174-1184 | the wrapped object has a directory at every non-empty prefix of the path, at the location of that prefix, and its own nodes below the full path |
| `DirectoryMerge.RelativeLocation` | cwltool/process.py:1168-1177 | joining the split relative path gives the location back |
| `DirectoryMerge.SplitParts` | cwltool/process.py:1174-1176 | no component of a split path contains a slash |
| `DirectoryMerge.NothingBelowFiles` | cwltool/process.py:1188-1210 | with unique basenames no path runs through a file |
| `DirectoryMerge.BuildTree` | cwltool/process.py:1166-1210 | nesting and merging any files keeps each at its relative path exactly when no file's path runs through another; then nothing is raised and there is nothing else but the directories above them |
| `Staging.FirstFree` | cwltool/process.py:256-259 | the search for a numbered name ends, by pigeonhole, at the first one that is not taken |
| `Staging.NameRegistry.UniqueName` | cwltool/process.py:1153-1163 | a name never given before: the stem if free, else its first free number; recorded as taken |
| `Staging.PathMapper.ClaimTarget` | cwltool/process.py:249-267 | an entry stays and claims or shares its target unless a file from another source has it; then it is refused without `fix_conflicts` and else moves to the first free number; nothing else changes |
| `Staging.FilesByName` | cwltool/process.py:249-251 | the entries that can conflict are those whose type name contains "File" |
| `Staging.PathMapper.RepairConflicts` | cwltool/process.py:246-268 | with `fix_conflicts` an entry moves exactly if an earlier file from another source has its target, to the first numbered target no earlier file has, all others stay, and no conflict is left; without, refused exactly when there is a conflict, and nothing changes |
| `BindingOrder.CmpLikePy2` | cwltool/utils.py:150-181 | the loop with early returns computes the recursive comparison: the first difference decides, two numbers by value and anything else by its texts, of which a tie counts as smaller; without one the shorter list comes first, and 0 is for equal keys |
| `BindingOrder.LessByRule` | cwltool/utils.py:172-174 | texts are compared by the code points at their first difference, and a proper prefix comes first |
| `BindingOrder.CompareAntisymmetric` | cwltool/utils.py:150-181 | antisymmetric, and zero only for equal keys, on components that cut the integers |
| `BindingOrder.CompareTransitive` | cwltool/utils.py:150-181 | transitive on such components |
| `BindingOrder.OrderIff` | cwltool/process.py:993-1004 | the comparison is an order on the keys over a set of strings exactly when each of them cuts the integers in two |
| `BindingOrder.CutIff` | cwltool/utils.py:172-177 | which strings cut the integers can be read off: by the first character, and by the next ones after a minus, a 0, a 1 or nines |
| `BindingOrder.OrderReadOff` | cwltool/process.py:993-1004 | so whether the comparison is an order can be read off the string components |
| `BindingOrder.NameIsCut` | cwltool/utils.py:172-177 | every name that starts above the digits cuts the integers |
| `BindingOrder.CompareIsStandard` | cwltool/process.py:993-1004 | on numbers and names it is the lexicographic order of the standard: shorter prefixes first, numbers before strings |
| `BindingOrder.CircleOfThree` | cwltool/utils.py:172-177 | 9, 10 and "1a" run in a circle |
| `CheckDigit.CheckMod112` | cwltool/cwlprov/__init__.py:24-49 | the loop accepts exactly the strings whose power-of-two weighted sum is 1 modulo 11, and raises exactly on no character or a body character that is no digit |
| `CheckDigit.KnownDigit` | cwltool/cwlprov/__init__.py:24-49 | the identifier 218250097 passes |
| `CheckDigit.KnownLetter` | cwltool/cwlprov/__init__.py:24-49 | 21694233X passes, with the letter as check character |
| `CheckDigit.ValueRule` | cwltool/cwlprov/__init__.py:38-49 | a digit is worth its number, the letter X, in either case, ten |
| `CheckDigit.StripClean` | cwltool/cwlprov/__init__.py:35 | stripping leaves no hyphen and changes nothing without one |
| `CheckDigit.StripConcat` | cwltool/cwlprov/__init__.py:35 | a text is stripped piece by piece, so only hyphens go |
| `CheckDigit.SubstitutionDetected` | cwltool/cwlprov/__init__.py:24-49 | in an accepted string of any length every substitution by another value is rejected |
| `CheckDigit.SwapDetected` | cwltool/cwlprov/__init__.py:24-49 | swapping two digits stays accepted exactly when they are equal or their distance is a multiple of 10 |
| `CheckDigit.WeightPeriod` | cwltool/cwlprov/__init__.py:38-40 | doubling k times changes no value modulo 11 exactly when k is a multiple of 10 |
| `Decimal.NatTextInjective` | cwltool/process.py:1161-1162 | different numbers have different decimal texts, so numbered names differ |

## Left out

- InputAssembly.ObjectFromState: assumes that no two parameters have the same key, which document validation guarantees; a repeated key would overwrite the earlier entry.
- InputAssembly.MatchTypes: type assignability (`can_assign_src_to_sink`) is an uninterpreted relation; an empty `linkMerge` string, which validation refuses, counts as unrecognized.
- CycleCheck.CircularDependencyChecker: requires a `#` in every id; without one the code fails with an index error.
- WorkflowJobs.WorkflowJob.Job: drives one job at a time, as the single-job executor does; every interleaving is covered by the state machine of `Scheduler`, liveness of the threaded run loop is not.
- WorkflowJobs.WorkflowJob.TryMakeJob: assembles inputs by the function that `InputAssembly.ObjectFromState` is proved to compute; state items are values here, their sharing is captured in `InputAssembly` only.
- Scheduler.Confluence: starts from one successful run, because it is about workflows that the static check may not have seen; `Progress.AcyclicConfluence` needs none.
- Progress.EveryRunCompletes: that each step succeeds is a hypothesis, because it is the tools' matter; `Wiring.WiredSucceeds` leaves of it only that the tools report well.
- Scheduler.TriedSound: a step with a scatter or loop is one step that reports as a whole; its inside is in `ScatterTree` and `LoopStep`. The handler for unexpected exceptions of a step (`workflow_job.py:759-762`) is not modelled.
- Scatter.StatusOrderIff: a scatter step whose status depends on the arrival order is no function of its inputs, so it is no step of `Scheduler`, where each step reports what its inputs determine.
- StaticCheck.CheckDecides: workflow inputs do not carry the id of a step, as they do not in a loaded document.
- CrossProduct.FlatScatter: scatter keys are distinct; with a repeated key the second narrowing would index into an element.
- CrossProduct.DotScatter: the branch for no scatter keys, which the code calls impossible, is not modelled.
- ScatterTree.SomeLeaf: the generator `parallel_steps` chooses one of the orders over which the theorems quantify; the choice itself, its early break on a failure and its report of permanent failure for a job that cannot be made are not modelled.
- LoopStep.WorkflowJobLoopStep.Job: a loop whose condition never becomes false is not covered; the number of iterations is a ghost argument. A `when` expression that raises an unexpected exception, and with it the empty outputs of a first iteration, is not modelled.
- Executor.RunJob and the step system: ram and cores are reals, so rounding of floating-point sums is not modelled; nor are the exception list and the drain of `run_jobs`.
- Executor.ScanMaximal: holds for a scan without completions in between; `add` releases the evaluation lock, and the step system allows them.
- TaskQueue.AllExited: safety only; timeouts of the blocking queue operations are not modelled.
- CacheProtocol.RunSafe: excludes the crashes of a running or failed job under a status file that still says success, because there the property is false (`CacheProtocol.CrashIffExposed`, `CacheProtocol.CrashBreaksCache`).
- Mutation.MatchingRelease: is about traces of the manager; a job that registers several times and releases once is such a trace (`Mutation.OutcomesExact`), the command-line tool that makes it is not modelled.
- DirectoryMerge.MergeDirs: entries are values, so the in-place extension of a listing that is shared between two places is not captured; a file that shares name and location with a directory keeps no listing.
- Staging.PathMapper.RepairConflicts: the loop over the entries; creating links and copies on disk is not modelled.
- BindingOrder.CompareIsStandard: booleans, floats and null components do not occur in keys and are not modelled.
- CheckDigit.CheckMod112: other decimal digits of Unicode, which `int` also reads, count as no digits.
- Evaluation of `when` and `valueFrom` expressions, loading of file contents and the tools themselves are functions given from outside.
- Provenance, logging, document loading, containers, file systems and the user interface are not part of this model.
- `get_subgraph`, `pack`, secrets and version updates are not part of this model.
