# Proofs about mypy's incremental builds, narrowing, calls and caches

This project models the parts of mypy whose correctness is hard to see from the code: the incremental
build engine (`mypy/build.py`), the type binder (`mypy/binder.py`), the checker for `match` patterns
(`mypy/checkpattern.py`), the binding of call arguments and of variadic tuples (`mypy/argmap.py`,
`mypy/checkexpr.py`), the cache format (`mypy/cache.py`) and the compressor of `misc/analyze_cache.py`.
`dafny verify dfyconfig.toml` checks it.

## What is modelled, and how it fits together

**Builds.** `Incremental` says what a check of a module is (a function of the module and of the
interfaces of its transitive imports, which records what it read), what a build without a cache
computes (`Consistent`), and what a cache entry promises (`WrittenBy`: some earlier check, of whatever
program, wrote it). `ImportHash` is the hash of a module's transitive import structure, over the bytes
that are really hashed. `SccTable`, `Components`, `TopSort` turn the import graph into numbered cycles
in dependency order, `DepCache` is the memo of transitive dependencies, `WorkerQueue` and `Workers` are
the queue and the worker processes, and `Build` is the `BuildManager` with its scheduling loop. `Runs`
puts whole builds one after the other: whatever earlier builds of whatever versions have stored, a
further build gives exactly the interfaces and errors that a build without a cache gives
(`CachedEqualsClean`, `IncrementalEqualsClean`), and it uses what they stored: `Records` says what a build
leaves in the store and when the next build of the same program finds nothing to do (`RebuildUnchanged`).
`Rounds` is the scheduling loop seen from outside,
`Freshness` says which of the hashes that the freshness test compares are final, and `ShortcutHistory`
has a history in which one is not. `GraphLoading` is `load_graph`, `Loading` is `maybe_load_deps`,
`Ordering` is `order_ascc`. `ToolsExist` shows for which programs what the builds assume can be met,
and `ShortcutHistory.EditedHistory` that this includes histories in which sources are edited.

**Binder.** `Binder` is `ConditionalTypeBinder` with a ghost list of what was known at every jump.
`BinderRuns` runs it through any operations, beside a record of the assignments that come last on some
path.

**Patterns.** `Patterns` gives values, types and patterns a meaning and defines the checker's results;
`PatternChecker` has the visitors with their loops. `Narrowing`, `PatternCaptures`, `PatternExactness`,
`PatternBindings` and `PatternLimits` are the theorems, and `PatternWorld` a world in which all that they assume holds.

**Calls and tuples.** `Calls` compares `check_argument_count` with the call rules of the Python
Language Reference (section 6.3.4, "Calls"). `TupleTypes` is the type of an item of a variadic tuple,
`VariadicUnions` the collapsing of unions of tuples.

**Formats.** `Wire` has integers and strings, `Json` JSON values, `CacheFiles` the metadata records,
`Compression` the compressor and decompressor of cache data.

Checking a module, finding modules on disk, Tarjan's algorithm and the order in which workers answer
are parameters, and so is which writes of metadata succeed. The digest is a function that does not collide on the buffers that are hashed. A
Python string is its UTF-8 encoding, integers are unbounded as in Python.

## Findings

Properties that one might expect, but which are false of the code. Each has a lemma with an input that
shows it, and a lemma that says exactly when the property holds.

| expected | input that shows it is false | when it holds |
|---|---|---|
| Every hash that the freshness test compares is final (`mypy/build.py:4535-4550`). | `ShortcutHistory.ShortcutComparesUnfinished`: after two builds an entry lists an indirect dependency that is no longer reachable. Before the third, something that this dependency imports is edited. The shortcut for an unchanged import hash (`mypy/build.py:4504-4506`) skips the test that would notice, and the old hash of the dependency is compared before it is found stale, in every run. The results of the build are right nevertheless. | `Freshness.FreshFinalIff`: exactly when every indirect dependency of the unit can be reached, which is the test that the shortcut skips, or is never found stale. A hash that is final is that of the final interface (`Freshness.FinalUnchanged`). |
| Building an unchanged program once more finds everything fresh, if no write failed. | `ShortcutHistory.UnchangedFoundStale`: in the third of the builds above, the module that is declared fresh keeps its entry, with the old hash of the other one (`mypy/build.py:4529-4540`). A fourth build of the same sources compares it with the interface that the third stored. | `Runs.RebuildUnchanged`: exactly when the hashes recorded for dependencies that a module cannot reach are those of the final interfaces, too; so always if each indirect dependency that a module was loaded with can be reached, and after a build without a cache. `Records.RecordedUpToDate` is the equivalence for what a build leaves. |
| Equal `trans_dep_hash` means equal transitive imports (`mypy/build.py:2652-2656`). | `ImportHash.NameThatIsADigest`: a module name that is also a digest, as the buffer does not mark which of the two follows. | `ImportHash.HashFixesClosureIff`: exactly when no module has a hash that is the name of a module further on in the alphabet. This is for digests that do not collide, and of which no module's hash names one of its own imports; without the second, the condition is still sufficient (`ImportHash.EqualHashesEqualClosures`), but the two graphs that it would confuse may happen to have the same transitive imports. |
| A matched type stays within the subject type. | `PatternLimits.StarWidens`: `[*rest]` against `tuple[None, Literal[True]]`. | `PatternLimits.StarWithinIff`: exactly when the items the star takes have the same values, or some position matches nothing. |
| What a pattern matches is not in the rest type. | `PatternLimits.TwoCanFail`: `[None, None]` against a tuple of two optional items. | `PatternLimits.RestExactIff`: exactly when at most one position can fail, or nothing of the type matches. |
| Every value of a captured type is bound by some value that matches. | `PatternWorld.UnmatchedCaptures`: `(x, None)` against a pair of `True` captures `Literal[True]` for `x`, as the captures of the other parts are kept when one part matches nothing (`mypy/checkpattern.py:300-376`). | `PatternBindings.TupleBoundIff`: over a tuple whose parts are bound, exactly when the whole pattern can match, or nothing captured has a value. `PatternBindings.CapturesExact` is the theorem for whole patterns. |
| A value that a lone star does not match is in the rest type. | `PatternWorld.LoneStarLosesText`: a sequence type that contains strings is taken out as a whole, but no sequence pattern matches a string. | `PatternLimits.LoneStarRestIff`: exactly when all values of the sequence type in the subject type are sequences. |
| The type captured for a star contains what the star binds. | `PatternCaptures.StarCapturesNever`: `[x, *rest]` against a union of one-element tuples captures the empty type for `rest`, but binds `[]`. | `PatternCaptures.StarTypedIff`: exactly when some tuple of the union leaves it something and can match around it. |
| `collapse_variadic_union` keeps the meaning of a union (`mypy/binder.py:656-660`). | `VariadicUnions.CollapseGainsOneTuple`: `tuple[()] \| tuple[int, int, *tuple[int, ...]] \| None` gains every tuple of one element, as `None` counts as a member. | `VariadicUnions.CollapseExactByOthers`: exactly when the members that are not tuples hold all tuples of the lengths in the gap. |
| After a pop, a type is a supertype of what was known at every jump. | `Binder.NarrowingHidesAssignment`: the shortcut for frames that only narrow keeps the type from before the context, although an assignment in it, which a condition then confirmed, gave the variable another one (`mypy/binder.py:334-340`). | `Binder.UpdatedJoined`: exactly when the key was assigned at some jump or some jump is unreachable, so that the shortcut does not apply, or what every jump carries is a subtype of the type known in the frame below. |
| After contexts have been left, a type is a supertype of what was assigned last on any path, unless a condition narrowed the key after that on the path. | `Binder.TestHidesLaterAssignment`: in a context a name is assigned and narrowed, and then assigned once more in an inner context that can be skipped. Leaving the inner one changes nothing, so that leaving the outer one sees only narrowing (`mypy/binder.py:334-340`, `mypy/binder.py:396-405`). | `BinderRuns.RunAll`: whenever the key was not narrowed, in a context that has been left since, to a type that does not fit the one known below it, or the assigned type fits that one. For a single pop `Binder.UpdatedJoined` has the exact condition. |

## Model

| member | source | states |
|---|---|---|
| Runs.CachedEqualsClean | mypy/build.py:4599-4676 | Whatever is in the store, as long as earlier checks of whatever versions of the program wrote it: building with it gives exactly the interface hashes and the errors of a build with an empty one, with or without workers; the two may differ in the number of workers. |
| Runs.IncrementalEqualsClean | mypy/build.py:4599-4676 | So after any history of builds of other versions, sources edited in between. |
| Runs.BuildAll | mypy/build.py:4599-4676 | Each build of a history, using what the ones before it stored, ends with the interfaces and errors of a correct build of its program, and leaves a store whose every entry an earlier check wrote. |
| Runs.Rebuild | mypy/build.py:4599-4676 | One build from loading to the last result: correct interfaces and errors, a genuine store, and a safe history in which every unit is decided and finished once. If loading takes from the store what it can, nothing is submitted exactly if every module has a usable entry whose hashes are those of the stored interfaces, and then the store stays as it was; if no write fails, the store then has an entry for every module, with its outcome and the final hashes of all that it reaches. |
| Runs.RebuildUnchanged | mypy/build.py:4517-4676 | Two builds of one program, with any numbers of workers, no write failing: the second submits nothing, keeps the store and shows the same interfaces and errors, exactly if the hashes recorded for what modules cannot reach are final, too; always if what modules were loaded with as indirect can be reached, and after an empty store. |
| Runs.CorrectUnique | mypy/build.py:4599-4676 | Where each import cycle has one solution, any two correct builds of a program agree on every interface and every error line. |
| Runs.TotalHint | mypy/build.py:5151-5151 | The size of a unit is the sum of the sizes of its modules. |
| Incremental.FreshMeansUnchanged | mypy/build.py:4517-4596 | A module that passes the freshness tests, with hashes that match the final interfaces of what it can reach, has the outcome that checking it now would give, whichever program its entry was written for. |
| Incremental.WrittenEntryOk | mypy/build.py:4911-4944 | The entry stored after a check is one that a later build may rely on, if the hashes recorded for what the check can reach are final. |
| Incremental.ConsistentUnique | mypy/build.py:4599-4676 | There is only one consistent assignment of outcomes when every cycle has one solution given the interfaces from outside. |
| Incremental.AcyclicLocallyUnique | mypy/build.py:4599-4676 | Without import cycles that assumption always holds. |
| Incremental.WrittenReachableIff | mypy/build.py:3568-3578 | After a check that only adds indirect dependencies, all of them are reachable exactly if those listed before were. |
| Records.RecordedUpToDate | mypy/build.py:4918-4944 | What a build stores is all up to date exactly if, for every module, the hashes recorded for dependencies that it cannot reach are those of the final interfaces. |
| Records.ReachableUpToDate | mypy/build.py:4918-4944 | So it is if each module could reach what it listed as indirect when it was loaded. |
| Records.FreshIffUpToDate | mypy/build.py:4517-4596 | Over states loaded from a store: the freshness test accepts every unit exactly if each module has a usable entry, with the present import structure or reachable indirect dependencies, and hashes equal to the stored interfaces. |
| Records.UnchangedIffFresh | mypy/build.py:4526-4553 | The freshness test, spelled out over fields: for every member, metadata, the listed dependencies and the options of missing imports as recorded, recorded hashes equal to the interfaces in the graph, and an equal import hash or only indirect dependencies (priority 30) that the unit reaches. |
| Freshness.FreshFinalIff | mypy/build.py:4496-4550 | Whatever the freshness test answers for the other units and whichever units finish first: every hash compared for a unit is final when the unit is decided, if and only if each indirect dependency of its modules can be reached, which is the test that equal import hashes skip, or belongs to a unit that is never found stale. |
| Rounds.FinalIffReachable | mypy/build.py:4640-4675 | Over all runs of the scheduling loop: whenever a unit is decided another one no longer changes, if and only if the first reaches it or the second is never found stale. |
| Rounds.Delayed | mypy/build.py:4644-4675 | A unit that is being worked on, and that another one does not reach, can be kept back until that one is decided. |
| Freshness.ComparedDependency | mypy/build.py:4529-4537 | The same for the hash of a single dependency: final if it is direct; if it is indirect, exactly if it can be reached or is never found stale. |
| Freshness.FinalUnchanged | mypy/build.py:4529-4537 | What is final does not differ from the outcome: the interface in the graph that is tested is that of a correct build. |
| ShortcutHistory.ShortcutComparesUnfinished | mypy/build.py:4496-4514 | Three builds of four modules, with all entries as the code writes them: in the second round of every run of the third, a module is declared fresh by comparing the hash of one that is found stale two rounds later and gets another interface. |
| ShortcutHistory.UnchangedFoundStale | mypy/build.py:4517-4596 | The store that the third of these builds leaves has, for the module that was declared fresh, a hash that is not that of the final interface, so that it is not up to date for the same program. |
| ShortcutHistory.EditedHistory | mypy/build.py:4599-4676 | Two versions with an edited source, whose outcomes differ, are served by the same tools, which take an entry of the first from the store for the second. |
| ShortcutHistory.HistoryValid | mypy/build.py:3568-3578 | A checker that reads beyond direct imports and a digest that meet everything assumed of them. |
| ToolsExist.ToolsExistIff | mypy/build.py:4599-4676 | For a valid program there are a solver, a loader that uses the store, a list of the cycles and an order that do what a build expects, exactly if the modules of every import cycle can be given outcomes that fit together, whatever is outside of it. |
| ToolsExist.HistoryServed | mypy/build.py:4599-4676 | The same tools serve any history of such programs. |
| ToolsExist.ToolsUseStore | mypy/build.py:4298-4471 | These tools take from every store what they can, and none of their writes fails. |
| ToolsExist.AcyclicSolvable | mypy/build.py:4599-4676 | Programs without import cycles are such programs. |
| ToolsExist.CyclesListed | mypy/build.py:5136 | Listing the component of the first module of each component gives every import cycle once. |
| Build.BuildManager.ProcessGraph | mypy/build.py:4599-4676 | Ends with every unit complete and its correct outcome shown; the history is safe (each unit is declared fresh or submitted once, after its dependencies finished, and finishes once), its rounds are a run as `Rounds` has them, all not-ready counts are those of no open dependency, and the store is genuine. Nothing is submitted exactly if every unit is fresh as loaded, and then graph and store stay as they were; if no write fails, the store then has an entry with the outcome of every module. |
| Build.BuildManager.Round | mypy/build.py:4644-4675 | One round of the loop keeps the invariant of scheduling; it completes just the units that are fresh by the test on the states at its beginning, if there are any, and otherwise some that are being worked on; if nothing was ready it makes the waiting shorter. |
| Build.BuildManager.NeverStalls | mypy/build.py:4644-4646 | As the graph of units is acyclic, while some unit is left something is ready or being worked on. |
| Build.BuildManager.FindStaleSccs | mypy/build.py:4517-4596 | Splits the ready units into fresh ones and stale ones: a unit of any size is among the fresh ones exactly if every member has metadata, lists and options as recorded, recorded hashes equal to the interfaces in the graph, and an equal import hash or only indirect dependencies that the unit reaches. Shows the stored errors of the fresh ones. |
| Build.BuildManager.CheckFresh | mypy/build.py:4526-4560 | The answer for one unit, stated over the same fields, both ways. |
| Build.BuildManager.VerifyTransitiveDeps | mypy/build.py:4496-4514 | Reports no dependency exactly if every module has an unchanged import hash or only indirect dependencies that the unit can reach. |
| Build.BuildManager.NotifyDone | mypy/build.py:4663-4675 | Counts down the dependents of finished units; the counts stay the numbers of unfinished dependencies, and exactly the units with none left become ready. |
| Build.BuildManager.ProcessResults | mypy/build.py:4679-4696 | Reported interfaces replace the old ones, reported errors are shown, nothing else changes. |
| Build.BuildManager.ProcessStaleScc | mypy/build.py:4815-4952 | Checks a unit in this process: interfaces, indirect dependencies and errors become those of the check, the entry of each module is stored if its write succeeds, no other entry changes, and the store stays genuine. |
| Build.BuildManager.WriteCacheMeta | mypy/build.py:4911-4944 | Stores exactly the entry of the module, with the hashes known to the process that writes it, and reports whether the write succeeded, which is a parameter; otherwise the store stays as it was. |
| Build.BuildManager.PatchIndirectDependencies | mypy/build.py:3568-3578 | The dependencies listed before stay in front, with their priorities; what the check read besides is appended in order, each marked as indirect; so the direct dependencies are the same, and all that was read is listed. |
| Incremental.PatchedDeps | mypy/build.py:3568-3578 | Patching lists exactly the old dependencies and what was read, and leaves the direct ones. |
| Build.BuildManager.WaitForDone | mypy/build.py:1464-1513 | Whatever the order in which workers answer: finished units leave the pending ones, their outcomes are correct, errors of finished modules are shown, and the work left gets less. |
| Build.BuildManager.SubmitStale | mypy/build.py:1390-1395 | Submitted units become pending, in the local queue or with the workers. |
| Trace.SafeOrder | mypy/build.py:4640-4675 | In a safe history a unit is decided once, before it finishes and after each of its dependencies has finished. |
| Schedule.NoStall | mypy/build.py:4640-4646 | If units wait but none is ready or pending, some dependency chain would be a cycle. |
| Progress.FreshStage | mypy/build.py:4562-4590 | Serving a set of fresh units from the cache leads from one stage of a correct build to the next. |
| Progress.WorkerStage | mypy/build.py:1481-1513 | So does receiving what workers found for units whose dependencies are complete. |
| Progress.StaleStage | mypy/build.py:4849-4952 | So does checking a unit in this process. |
| Progress.FinalStage | mypy/build.py:4599-4676 | The outcomes of the last stage are those of a consistent build of the whole program. |
| DepCache.TransitiveDeps.IsTransitiveSccDep | mypy/build.py:1515-1542 | Answers exactly whether one unit reaches another over one or more dependencies; every entry of the memo, negative ones included, stays correct, and none is lost. |
| DepCache.FrontierFalls | mypy/build.py:1526-1540 | The search ends although it visits units again: what lies ahead gets less in every round of an acyclic graph. |
| DepCache.SearchExhausted | mypy/build.py:1538-1541 | When the search finds nothing, none of the visited units reaches the target, so the negative entries are right. |
| ImportHash.HashFixesClosureIff | mypy/build.py:5192-5222 | For a digest that does not collide: over all import graphs with given module names, an unchanged hash means unchanged transitive imports, if and only if no module has a hash that is the name of a module further on in the alphabet. |
| ImportHash.EqualHashesEqualClosures | mypy/build.py:5192-5222 | Equal hashes, even of two modules in two different import graphs, mean equal sets of transitive imports, if no hash in the two graphs is the name of a later module. |
| ImportHash.NameAfterConfuses | mypy/build.py:5216-5222 | If a module's hash is the name b of a later one, not among its imports, then b has the same hash in a cycle with it as it has if it just imports it, with other transitive imports. |
| ImportHash.HashLocal | mypy/build.py:5192-5222 | The hash of a module depends only on the imports of the modules it reaches. |
| ImportHash.EncodeDepsInjective | mypy/build.py:5192-5222 | The bytes that are hashed determine the direct imports of a cycle and the hashes of those outside of it. |
| ImportHash.NameThatIsADigest | mypy/build.py:5216-5222 | A module that has the same hash in two graphs and different transitive imports, with a digest that is injective on all short buffers. |
| ImportHash.MarkedApart | mypy/build.py:5192-5222 | With a digest that puts a mark in front, no hash is a name that does not begin with the mark. |
| Components.TransitiveDepHash | mypy/build.py:5192-5222 | Computes the import hash of a cycle; the fast path for a single module computes the same as the general path. |
| Components.SortedComponents | mypy/build.py:5128-5160 | The units are the import cycles, listed each once and after those they depend on, with their dependents and with the import hash of every module set. |
| Components.PrepareSccsFull | mypy/build.py:5105-5125 | Turns a partition into import cycles into a table of numbered units whose dependencies are those of their modules, without themselves. |
| Components.ByOrder | mypy/build.py:5141-5149 | Lists a level each once, units whose smallest order number is larger first. |
| Components.FilteredIsDirect | mypy/build.py:5180-5189 | Filtering by priority leaves exactly the direct dependencies, without repetitions. |
| TopSort.Sorter.NextReady | mypy/graph_utils.py:142-162 | Yields exactly the items whose dependencies have all been yielded, and stops only when all have. |
| SccTable.TableAcyclic | mypy/build.py:5105-5125 | The dependencies between import cycles are acyclic. |
| SccTable.ModulesReachUnitsReach | mypy/build.py:5105-5125 | A module that another one reaches is in the same unit or in one that its unit reaches. |
| SccTable.UnitsReachModulesReach | mypy/build.py:5105-5125 | If one unit reaches another, each module of the one reaches each of the other. |
| WorkerQueue.SccQueue.GetSccBatch | mypy/build.py:1397-1425 | Takes the largest units first; a batch is empty only with an empty queue, within the limit unless it is a single unit, and as long as the limit allows; the queue size stays the total of what is queued. |
| WorkerQueue.SccQueue.Push | mypy/build.py:1427-1440 | Queues a unit behind those that come before it by size and order number; the total size is kept. |
| WorkerQueue.InsertInOrder | mypy/build.py:1427-1440 | Order numbers stay distinct and strictly decide between equal sizes, so that comparing two entries never reaches the units. |
| WorkerQueue.PushAllTotal | mypy/build.py:1427-1432 | Queueing units adds exactly their given sizes to the total. |
| WorkerQueue.BatchIsFair | mypy/build.py:1397-1425 | A batch taken with a limit of a rounded-down share of the total is one unit or within the share, and the next unit would not have been. |
| Workers.WorkerPool.SubmitToWorkers | mypy/build.py:1427-1461 | Every submitted unit is queued under its given size or with one worker. With n workers, each worker that became busy was idle and has one unit, or units whose total size times 2n is at most the total queued after submitting; batches follow the order of the queue, and each ends at the end of the queue or where the next unit would exceed this share. It stops only with an empty queue or without a free worker. |
| Workers.WorkerPool.SendBatches | mypy/build.py:1433-1461 | The same for handing out what is queued, with the total at its beginning. |
| Workers.WorkerPool.Enqueue | mypy/build.py:1428-1432 | A unit is queued under the negative of its size, with the next order number. |
| Workers.WorkerPool.FinishInterface | mypy/build.py:1481-1513 | The first answer ends a batch: its units leave the pool, and the worker holds their modules until it has checked the function bodies. |
| Workers.WorkerPool.FinishImplementation | mypy/build.py:1481-1513 | The second answer frees the worker and the modules it held, and no others. |
| Loading.Loader.MaybeLoadDeps | mypy/build.py:4762-4803 | Loads exactly the transitive dependencies that are missing, each once, in top order and after what it depends on; `done_sccs` stays closed under dependencies. |
| Loading.FindMissing | mypy/build.py:4762-4771 | The search that stops at loaded units finds all transitive dependencies that are not loaded, and only those. |
| Loading.Loader.ProcessStaleScc | mypy/build.py:4849-4945 | After loading and processing, the unit and everything it can reach is done, and nothing else became so. |
| Loading.Loader.ProcessInBuild | mypy/build.py:4762-4803 | In a build without workers only units that were declared fresh are loaded from the cache. |
| Loading.Loader.ProcessInWorker | mypy/build.py:4955-5025 | If the cache has current interfaces for what a unit needs, the worker that processed it knows the current interface of all that its modules can reach. |
| Loading.OnlyFreshLoaded | mypy/build.py:4762-4803 | At each processing of a stale unit in a safe history, what it needs and is not loaded was declared fresh, as every stale one has been processed before. |
| Loading.SeesClosure | mypy/build.py:4762-4803 | Being loaded up to a unit means knowing the interfaces of the transitive imports of its modules. |
| Loading.PickedInOrder | mypy/build.py:4773-4777 | Picking the missing units out of the top order appends them in dependency order to what was loaded before. |
| Ordering.OrderAscc | mypy/build.py:4699-4743 | Lists each module of a strongly connected set once; for every priority limit at once, what a module reaches over arcs below the limit comes before it unless it reaches back; with one priority only, later encountered modules come first. If no two modules were encountered at the same time, the result is the one list that the graph and these numbers determine (`OrderOf`), in whatever order cycles are found. It ends, and never takes the maximum of nothing. |
| Ordering.LevelsAreList | mypy/build.py:5163-5177 | The levels of a table of components, however it is numbered, are those of the graph: each the components whose arcs lead to what is listed before, those encountered later first. |
| Ordering.SortedComponentsInner | mypy/build.py:5163-5177 | The components left by the arcs below a limit, each once and after those it depends on, level by level, and within a level those with modules encountered later first. |
| Ordering.TopSorted | mypy/build.py:5172-5177 | Lists the units in levels: each level is exactly what depends only on earlier levels, sorted by descending smallest order number. |
| Ordering.SpreadFalls | mypy/build.py:4718-4724 | Each level of the recursion has strictly fewer priorities. |
| Ordering.SpreadNotEmpty | mypy/build.py:4740-4740 | A strongly connected set of several modules has a priority to take the maximum of. |
| Ordering.ComponentStrong | mypy/build.py:4740-4743 | The members of a component reach each other by arcs within it, so that the recursion may be applied. |
| Ordering.UnitStrong | mypy/build.py:4473-4480 | The units of a loaded graph may be ordered this way. |
| Ordering.PartsCombine | mypy/build.py:4743-4743 | Orders of the components that respect all limits, one behind the other, respect all limits for the whole set. |
| GraphLoading.LoadGraph | mypy/build.py:4317-4470 | Ends; unless a source or a file is there twice, which it is then not, the graph has all sources that are found and only what is looked for and found on a path from them; the dependencies of each module are exactly the listed ones that are in the graph, the missing ones exactly the others, priorities are those of the parser or the cache, and what had to be looked for is missing only if it was not found. So what a parsed module imports with a priority less than indirect is in the graph, if it is found. |
| GraphLoading.ImportsLoaded | mypy/build.py:4381-4450 | What a parsed module imports directly is in the graph if it is found, builtins included, and each import has the least priority of its entries; so is what the cache lists as direct for a module that was not parsed. |
| GraphLoading.CacheListsKept | mypy/build.py:3049-3064 | A module read from the cache keeps exactly the lists and priorities of its entry, in order, if all it lists is there again and what was missing still is; this is what the first freshness test compares. |
| GraphLoading.LoadedClosed | mypy/build.py:4317-4470 | A loaded graph is closed: every dependency left, indirect or not, is in it, nothing that is missing is, and no list repeats anything. |
| GraphLoading.GraphLoader.FollowAll | mypy/build.py:4361-4453 | The breadth-first search ends, a module that is not ready is always among those waiting to be parsed, and every listed dependency has been looked for. |
| GraphLoading.GraphLoader.VisitDep | mypy/build.py:4393-4450 | Following one entry adds the module, finds it in the graph, or leaves it missing for a reason. |
| GraphLoading.AddDependency | mypy/build.py:3378-3384 | Moves a module from the missing ones to the end of the dependencies; lists stay without repetitions and equal to their sets. |
| GraphLoading.SuppressDependency | mypy/build.py:3386-3392 | The reverse. |
| GraphLoading.ComputeDependencies | mypy/build.py:3394-3446 | A parsed module depends on what it imports, on builtins and on what template strings need, each once, and nothing is missing yet; the priorities are those of exactly the imported modules, each the least of its import entries, at most 99. |
| GraphLoading.BringBack | mypy/build.py:4453-4460 | Missing modules that are in the graph after all become dependencies again. |
| GraphLoading.SuppressIndirect | mypy/build.py:4461-4467 | Indirect dependencies that are not in the graph become missing, so that all lists are in step with it. |
| GraphLoading.Clashes | mypy/build.py:4427-4444 | A file that was seen belongs to another module, found as such. |
| Binder.ConditionalTypeBinder.PopFrame | mypy/binder.py:427-448 | After a pop that is not discarded, each key is unknown or a supertype of what was known at every reachable jump to that level, those recorded before invalidations included, exactly unless the narrowing-only shortcut applies and some jump carries a type that is no subtype of the one known below; then it keeps that one. Whatever changed is in the top frame, marked as coming from an assignment; the frame is unreachable exactly if all jumps are; jumps further down are recorded; and a change is reported exactly if a key changed that was known or is no variable, or got another type than the declared one. |
| Binder.ConditionalTypeBinder.UpdateFromOptions | mypy/binder.py:301-425 | Every key gets what the code's case distinction says for the reachable jumps, the exact join where it is new, and other keys stay; what changed is marked as coming from an assignment. |
| Binder.ConditionalTypeBinder.AllowJump | mypy/binder.py:557-567 | The flattened frame recorded for a jump has, on top of the frames below, exactly what is known now. |
| Binder.ConditionalTypeBinder.HandleBreak | mypy/binder.py:569-571 | What is known is recorded for the frame after the loop, and the current frame becomes unreachable. |
| Binder.ConditionalTypeBinder.HandleContinue | mypy/binder.py:573-575 | The same for the next iteration. |
| Binder.ConditionalTypeBinder.AssignType | mypy/binder.py:465-542 | Forgets what depends on the target, records the type if it fits the declaration, and tells every enclosing `try`. |
| Binder.ConditionalTypeBinder.InvalidateDependencies | mypy/binder.py:544-555 | Exactly the expressions that the changed one is part of are forgotten, in all frames. |
| Binder.ConditionalTypeBinder.AddDependencies | mypy/binder.py:214-220 | A key is listed under exactly the expressions it contains. |
| Binder.ConditionalTypeBinder.Put | mypy/binder.py:250-264 | Narrows one key of the top frame. |
| Binder.ConditionalTypeBinder.Get | mypy/binder.py:233-240 | Finds the type in the innermost frame that has one. |
| Binder.ConditionalTypeBinder.Enter | mypy/binder.py:577-625 | Entering a context changes nothing that is known; a `try` context starts with a jump. |
| Binder.ConditionalTypeBinder.Exit | mypy/binder.py:577-625 | Leaving it has the guarantee of the pop and restores the targets of jumps. |
| Binder.FlatSplit | mypy/binder.py:557-567 | The effect of a stack is that of its lower part followed by its flattened upper part. |
| Binder.JumpRecorded | mypy/binder.py:557-567 | Recording a jump keeps the invariant that ties recorded frames to what was known. |
| Binder.UpdatedJoined | mypy/binder.py:301-425 | What the case distinction chooses is a supertype at every reachable jump, if and only if the narrowing-only shortcut does not apply or what every jump carries is a subtype of what is known in the frame below; otherwise it stays as it was there. |
| Binder.NarrowingHidesAssignment | mypy/binder.py:334-340 | A run after which a name is known with its type from before a context, although a value of a type that is no subtype of it was assigned on the only path through the context. |
| Binder.TestHidesLaterAssignment | mypy/binder.py:334-340 | A run after which a name is known with its type from before a context, although one path through it assigned a value of another type last, with no condition after that. |
| BinderRuns.RunAll | mypy/binder.py:301-625 | Any sequence of assignments, narrowings, contexts, breaks and continues: whatever was assigned to a key last on some path to the end, the key is unknown there or a supertype of it; except for an assignment, on a path out of a context, to a key that a condition in the context narrowed to a type that does not fit what is known below it, as the assigned type does not. |
| BinderRuns.Perform | mypy/binder.py:301-625 | One operation keeps this for the present point, for where each open context was entered and for every recorded jump, and does to the record what `LogAfter` says. |
| BinderRuns.JoinHolds | mypy/binder.py:301-425 | Where paths come together, what was assigned last on a path to one of the jumps has a type that fits what is known then. |
| BinderRuns.NothingNarrowed | mypy/binder.py:301-625 | In runs without narrowing the exception never applies, so that joins count every assignment that comes last on some path. |
| Narrowing.NarrowingSound | mypy/checkpattern.py:130-402 | For every pattern and every value of the subject type: a value that matches by PEP 634 is in the matched type, any other one in the rest type. |
| Narrowing.OnlyOne | mypy/checkpattern.py:362-374 | When all positions but one always match, a tuple that does not match fails at that one. |
| Narrowing.ContractAt | mypy/checkpattern.py:404-449 | Each item of a tuple is part of the type that its pattern is checked against. |
| Narrowing.ExpandAt | mypy/checkpattern.py:451-477 | Expanding gives every position the type of the pattern that takes it. |
| PatternCaptures.CapturesSound | mypy/checkpattern.py:130-402 | What a matching pattern binds to a variable is in a type captured for it, or is the empty list of a star. |
| PatternCaptures.StarTypedIff | mypy/checkpattern.py:252-289 | Over a union of tuples, the type captured for the star has what the star takes exactly if some tuple leaves it something and can match around it. |
| PatternCaptures.StarCapturesNever | mypy/checkpattern.py:266-289 | `[x, *rest]` against a union of two one-element tuple types: a value that matches binds `rest` to the empty list, and its captured type is the empty type. |
| PatternCaptures.TakesItemsIff | mypy/checkpattern.py:330-361 | A tuple narrows to something with a type for the star exactly if the patterns around the star can match their items. |
| PatternExactness.NarrowingExact | mypy/checkpattern.py:130-402 | Over types built from constants, tuples and unions, every value of the matched type matches; without stars it is in the subject type, and where at most one position of every sequence can fail, no value of the rest type matches. |
| PatternBindings.CapturesExact | mypy/checkpattern.py:130-402 | Over types built from constants, tuples and unions, for patterns without stars: every value of a type captured for a variable is bound to it by some value of the subject type that matches, if each sequence pattern whose captures are kept can match the tuple it is checked against, and alternatives before the last leave just what they do not match. |
| PatternBindings.AsBinds | mypy/checkpattern.py:137-152 | A value of the type captured by an `as` pattern matches the pattern inside and is in the subject type. |
| PatternBindings.OrBound | mypy/checkpattern.py:154-202 | If the captures of each alternative are bound by values of what the ones before leave, those of the or-pattern are bound by values whose first matching alternative binds them. |
| PatternBindings.UnionBound | mypy/checkpattern.py:252-289 | If the captures for each member of a union that can match are bound, those for the union are. |
| PatternBindings.TupleBoundIff | mypy/checkpattern.py:330-376 | Over a tuple whose parts are bound, the captures are bound exactly if the pattern can match some value of the tuple type, or no captured type has a value. |
| PatternLimits.StarWithinIff | mypy/checkpattern.py:404-477 | With a star, the matched type of a tuple stays within the subject type exactly if the items of its slice have the same values, or some position matches nothing. |
| PatternLimits.RestExactIff | mypy/checkpattern.py:362-374 | The rest type of a tuple leaves out all that matches exactly if at most one position can fail, or nothing matches. |
| PatternLimits.NarrowedIff | mypy/checkpattern.py:330-361 | The matched type of a tuple has exactly the values that are possible at every position. |
| PatternLimits.StarWidens | mypy/checkpattern.py:404-477 | A concrete value that the matched type gains. |
| PatternLimits.TwoCanFail | mypy/checkpattern.py:362-374 | A concrete value that matches and is in the rest type. |
| PatternLimits.LoneStarRestIff | mypy/checkpattern.py:390-402 | For a lone star over another type the rest type keeps all that does not match exactly if the values of the sequence type are sequences. |
| PatternLimits.OnlySequencesLeft | mypy/checkpattern.py:376-402 | Against any type that is neither union nor tuple, a sequence pattern leaves only sequences of the subject type. |
| PatternWorld.LoneStarLosesText | mypy/checkpattern.py:390-402 | A world in which a string, which a lone star does not match, is in the sequence type and not in the rest type. |
| PatternWorld.UnmatchedCaptures | mypy/checkpattern.py:330-376 | A pattern of two parts that matches no value of a tuple type and captures a type with a value. |
| PatternWorld.ExactExists | mypy/checkpattern.py:130-402 | There are meanings of types and functions for narrowing, unions and sequences that meet all hypotheses of the theorems about patterns. |
| PatternChecking.PatternChecker.Accept | mypy/checkpattern.py:130-135 | The visitors compute the specified result for every pattern, and leave the stack of contexts as it was; the matched and the rest type account for every value, and under the conditions of `PatternBindings.CapturesExact` every value of a captured type is bound by some value that matches. |
| PatternChecking.PatternChecker.VisitOr | mypy/checkpattern.py:154-202 | Each alternative is checked against what the ones before leave. |
| PatternChecking.PatternChecker.VisitSequence | mypy/checkpattern.py:233-402 | The specified result for sequence patterns over unions, tuples and other types. |
| PatternChecking.PatternChecker.VisitAs | mypy/checkpattern.py:137-152 | The specified result for captures, wildcards and `as`; every value of the type captured for the name is in the subject type and matches the pattern inside. |
| Calls.CheckCall | mypy/checkexpr.py:2489-2567 | The argument check succeeds exactly if the call rules bind the arguments, and then each parameter gets exactly the arguments that the rules give it. |
| Calls.CheckIsExact | mypy/checkexpr.py:2489-2567 | The same for every mapping that satisfies the specification of the mapping. |
| Calls.MapActualsToFormals | mypy/argmap.py:27-122 | The loops compute the specified mapping of positional, keyword and `*tuple` arguments. |
| Calls.CheckArgumentCount | mypy/checkexpr.py:2489-2567 | The answer is the specified acceptance of a mapping. |
| Calls.CheckForExtraActualArguments | mypy/checkexpr.py:2569-2628 | There are no extra arguments exactly if each is mapped as often as it has items; an unexpected keyword is reported exactly if one is not mapped. |
| Calls.ExtrasIff | mypy/checkexpr.py:2569-2628 | Counting how often arguments are mapped finds exactly the dropped ones. |
| Calls.SucceedsIff | mypy/argmap.py:27-122 | The call rules succeed exactly if nothing is dropped, all keywords find a parameter and every parameter is filled fittingly. |
| Calls.MapFormalsToActuals | mypy/argmap.py:125-141 | The reverse of the mapping. |
| Calls.TakersCount | mypy/argmap.py:125-141 | A formal is listed for an actual as often as the actual is for the formal. |
| TupleTypes.IndexExact | mypy/checkexpr.py:4619-4681 | The types found for an index are exactly those that occur there over all admissible lengths; none is found exactly if some length makes the index out of range. |
| TupleTypes.FixedIndex | mypy/checkexpr.py:4619-4681 | The same without an unpacked item. |
| VariadicUnions.CollapseVariadicUnion | mypy/binder.py:653-710 | Collapses exactly if the union has one of the shapes that are recognised, and returns the collapsed union, otherwise the union itself. |
| VariadicUnions.CollapseExactIff | mypy/binder.py:653-710 | A collapse keeps the meaning exactly if all tuples of lengths in the gap are in the union anyway. |
| VariadicUnions.CollapseExactByOthers | mypy/binder.py:653-710 | That is, exactly if members that are not tuples hold them; no tuple of the union can. |
| VariadicUnions.CollapseWider | mypy/binder.py:653-710 | A collapse never loses a value. |
| VariadicUnions.TuplesCollapseExactly | mypy/binder.py:653-710 | A union of tuples only keeps its meaning, for any number of members. |
| VariadicUnions.CollapseGainsOneTuple | mypy/binder.py:701-710 | A union with another member that gains a tuple. |
| VariadicUnions.FindShape | mypy/binder.py:673-703 | Finds the prefix, element type and suffix whenever there are any. |
| VariadicUnions.SortByLength | mypy/binder.py:673-673 | A permutation, in ascending length. |
| Json.JsonRoundTrip | mypy/cache.py:504-577 | Reading what was written gives the value back and consumes exactly its bytes, whatever follows. |
| Json.JsonInjective | mypy/cache.py:530-563 | Different values are written differently, even when followed by other data. |
| Json.FirstByte | mypy/cache.py:530-563 | The first byte written is 0 for false, 1 for true, 2 for null, 3 for an integer, 4 for a string, 6 for a float, 20 for a list, 24 for a tuple and 30 for a dictionary. |
| Json.JsonExample | mypy/cache.py:530-563 | The eight bytes of {"b": [true, null]}. |
| Json.OptionsDigestFaithful | mypy/build.py:1960-1982 | Equal digests of options mean equal options, if the digest does not collide on the two. |
| Json.WriteJsonValue | mypy/cache.py:530-563 | Appends the specified bytes; dictionaries are written in the order of their keys. |
| Json.ReadJsonValue | mypy/cache.py:504-527 | Reads as specified, and fails where the code does. |
| CacheFiles.MetaRoundTrip | mypy/cache.py:190-244 | Reading the bytes of a metadata record gives it back, whatever follows. |
| CacheFiles.MetaExRoundTrip | mypy/cache.py:282-298 | The same for the extra record. |
| CacheFiles.FlagsRoundTrip | mypy/cache.py:580-591 | Flags packed into an integer come back, for any number of flags. |
| CacheFiles.ErrorRoundTrip | mypy/cache.py:594-627 | An error tuple comes back with its optional fields. |
| CacheFiles.SaveAndLoadMeta | mypy/cache.py:190-244 | Saving succeeds exactly if all fields can be written, and then loading gives the record back. |
| CacheFiles.SaveAndLoadMetaEx | mypy/cache.py:282-298 | The same for the extra record. |
| CacheFiles.FixedApplies | mypyc/lib-rt/internal/librt_internal.c:418-505 | The format in which these theorems are meant, the fixed binary one, is one to which they apply. |
| Wire.IntRoundTrip | mypyc/lib-rt/internal/librt_internal.c:695-839 | Integers of any size come back, in each of the four encodings. |
| Wire.IntExamples | mypyc/lib-rt/internal/librt_internal.c:695-839 | The bytes of integers at the limits of the encodings of one, two and four bytes, and of a longer one. |
| Wire.StrRoundTrip | mypyc/lib-rt/internal/librt_internal.c:418-505 | Strings come back with their length encoding. |
| Wire.FixedDelimits | mypyc/lib-rt/internal/librt_internal.c:418-505 | The encodings of integers and strings tell where they end. |
| Compression.DecompressCompress | misc/analyze_cache.py:88-147 | Decompressing compressed data gives it back, down to the order of keys, if no two different parts have the same hash and none has a key that compressing adds; every reference is to something that is in the cache by then. |
| Compression.CompressInjective | misc/analyze_cache.py:88-118 | So different data stays different. |
| Compression.RoundTrip | misc/analyze_cache.py:88-147 | The same for each part, with the two walks in step and the dictionaries they are inside of still open. |
| Compression.WrittenOnce | misc/analyze_cache.py:100-108 | A dictionary of more than two entries that was compressed becomes a reference wherever it comes up again. |
| Compression.AddsKeys | misc/analyze_cache.py:100-108 | Compressing a new dictionary adds the key for its number after the keys it has, and what stands for it later is a reference to this number. |
| Compression.AddedKeys | misc/analyze_cache.py:100-108 | These keys are `.cache_id` and `.id`, and a reference has no other. |
| Compression.SeenOnce | misc/analyze_cache.py:100-108 | No dictionary gets two numbers. |
| Compression.Compressor.Helper | misc/analyze_cache.py:92-116 | The loops compute the specified compression, and the memo after it. |
| Compression.Decompressor.Helper | misc/analyze_cache.py:124-147 | The loops compute the specified decompression, and fail where it does. |
| Compression.CompressAndBack | misc/analyze_cache.py:88-147 | Both programs, one after the other, give back the data. |

## Left out

- Parsing, semantic analysis and type checking of a module are one function of the module and of the interfaces it can see; errors that stop a build, and clocks, files and file times, are not modelled.
- Workers: their start, messages and failures. A worker answers first with interfaces, then with errors; which of them answers next is arbitrary.
- Rounds.FinalIffReachable: the batches in which units are sent to workers are not part of the rounds; which of the units being worked on finish is arbitrary, as it is with a worker for each.
- Runs.Rebuild: the graph it gets is a parameter that describes the program; `GraphLoading` is about the same lists with their missing modules and is not linked to it. The interfaces that a worker sees are a parameter too, with the property that `Loading.Loader.ProcessInWorker` proves.
- Build.BuildManager.PatchIndirectDependencies: what a check reads from parent packages and from missing modules is not recorded by the code, and not counted as read by the model.
- Runs.RebuildUnchanged: which entries a loader can use is a condition on source, options, imports and lists (`Records.Usable`); a hash that a module keeps for what it cannot reach depends on the order in which units finish, and the condition is on what was recorded.
- Workers.WorkerPool.SubmitToWorkers: the share is that of Linux, half of what other systems hand out; sizes are integers, so that the share is not rounded as a float.
- BinderRuns.RunAll: an assignment that does not fit the declaration is not counted, as the binder records nothing for it; that the exception can apply is shown, but when it applies the law may still hold.
- PatternBindings.CapturesExact: stars are left out, whose captures the other theorems are about; so are subject types other than constants, tuples and unions.
- Incremental.FreshMeansUnchanged: an entry and its extra record are of the same check; options other than those of missing imports do not change between builds.
- Components.SortedComponents: the order among units of one level, which `Components.ByOrder` states, is not part of what is stated of the whole.
- Ordering.OrderAscc: the special order of the cycle with `builtins` is not modelled.
- GraphLoading.LoadGraph: states are values in a map, so that two names for one state are not modelled; the fine-grained mode of the daemon, and loading into an old graph, are left out.
- Binder.ConditionalTypeBinder.PopFrame: lattices of types without `Any` and type variables, `bind_all` is off, and the declared type of partial types and the special cases of `assign_type` for unions with `Any` are left out.
- Narrowing.NarrowingSound: class, mapping and value patterns and variadic tuples are left out; narrowing by a type, forming unions, joins and item types are functions with stated properties.
- PatternExactness.NarrowingExact: only for types whose matching is decided by their structure; the rest type is exact only where at most one position of each sequence can fail, beyond which `PatternLimits.RestExactIff` says what happens for a tuple.
- Calls.CheckCall: several `*tuple` arguments through `ArgTypeExpander`, `**kwargs` arguments, other iterables and ParamSpec, where the code is lenient.
- TupleTypes.IndexExact: an unpacked item of type `Any`.
- CacheFiles.MetaRoundTrip: the JSON form of the records; floats are eight bytes that are not interpreted.
- Compression.DecompressCompress: data in which one object occurs at two places.
- The daemon, fine-grained updates, the metadata store, plugins and statistics.
