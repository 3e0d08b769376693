# Verified model of Syver's stateful cores

Syver checks a server against a specification. Around its probes of the host it has a few small, stateful
algorithms whose guarantees everything else rests on. This project models them in Dafny and proves those
guarantees for every input, every interleaving and every map order.

- **Scheduling.** `Schedule` resolves `depends-on` entries, `Graphs` searches for cycles with three colours,
  and `Scheduler` is the wave scheduler as a transition system: a coordinator, a pool of workers whose steps
  interleave freely, and a mutex around two maps. `Outcomes` says what a dependency graph means on its own, by
  recursion over the prerequisites, and `SchedulerTheorems` proves that every run computes exactly that.
  `SchedulerInvariant`, `SchedulerSteps` and `SchedulerTermination` hold the inductive invariant and the
  measure. `Pool` and `Discovery` are the plain worker pools, `HealthVerdict` the verdict and the choice of
  scheduler, `HealthCache` the double-checked cache of the health endpoint.
- **Text.** `EditDistance` proves the two-row program against the shortest edit script, `PatternSyntax`,
  `HavePatterns` and `CommandOutput` the pattern language from both sides, `Acl` the printing of access masks.
- **Matchers.** `MatcherLanguage` is the target language of expectations with its three outcomes,
  `MatcherNodes` the stateful objects and the reports they give, `MatcherCompiler` the compiler, proved
  against a reading of expectations that never mentions a tree. `MatcherOrder` says when the order in which
  the maps of an expectation are read shows in its outcome.
- **Flattening.** `Includes` merges a possibly cyclic include graph, `Meta` flattens possibly cyclic metadata, and
  `MetaOrder` says when the order in which maps are read shows in the result.

Algorithms that update variables, fields or arrays are methods and classes here too, proved against functions
or against the property itself. Concurrent code is a transition system, whose steps are the points at which
goroutines can interleave. Methods that the program spreads over one long body may be split by loop. What names,
numbers and orders mean is stated a second time without the functions that compute them: see `QualifiedResolves`,
`AtMostMeans`, `IncludesInOrder`, `ChildrenFollowKeys`, `MatchRegex`, `MatcherNames` and `EntriesInOrder`.

Results worth knowing before reading on:

- One expectation can have several outcomes, by the order in which its `gjson` maps are read each time it is
  compiled. `May` reads off an expectation which outcomes it can have, and `MayExactly` proves that they are those
  of its trees, nested groups included. Whether a check passes can change exactly when it may pass and may fail
  (`VerdictsAgreeExactly`); for a negated group, exactly when some path may be false and some path may be an error
  or all may be true (`NegatedGroupVerdict`). `NestedGroupCanDiffer` is an instance in which the negated group
  itself has one path. Negation is not the only place: a group before another alternative of an `or` can pass or
  error too (`AlternativesCanDiffer`). Where groups of two or more paths stand under neither `not` nor a collection
  matcher, and not before another alternative, truth never changes (`SureVerdict`); without such groups there is
  only one tree (`FixedTree`).
- An access mask is lost in printing only for the generic-all bit alone, which shares its letter with full
  control. An access control entry can be read back for every principal, with or without colons in it.
- A metadata map whose keys are not strings shows only one of the values of keys that render alike, so leaves can
  be dropped, and which one can depend on the order in which the map is read. It flattens the same way in all
  orders exactly when any two keys that render alike hold values that flatten alike one level down
  (`MixedIsSteady`); `Alike` spells that condition out on the graph (`AlikeExactly`). `OrderCanShow` is an instance
  that differs. String-keyed metadata never differs (`StringKeysAreSteady`).
- An escaped output line that starts with a backslash matches its source line, but loses the backslash.

## Model

| member | source | states |
|---|---|---|
| Graphs.CycleSearch.Enter | dependency_scheduler.go:93 | Colouring a node grey keeps the search invariant: the grey nodes lie on one walk, the black ones in topological order |
| Graphs.CycleSearch.Leave | dependency_scheduler.go:99 | A node whose prerequisites are all black may be coloured black, and the invariant holds again |
| Graphs.CycleSearch.Visit | dependency_scheduler.go:86-101 | Terminates on the number of unvisited nodes; without an error the node and all before it are black, and an error names a node that reaches itself |
| Graphs.CycleSearch.VisitPrerequisites | dependency_scheduler.go:94-98 | Every prerequisite of the node on top of the stack is visited and black, or a cycle is reported |
| Graphs.DetectDependencyCycles | dependency_scheduler.go:78-109 | No error if and only if the graph is acyclic, whatever the order of the roots; an error names a node on a cycle |
| Graphs.HeightFalls | dependency_scheduler.go:143-205 | On an acyclic graph a prerequisite has strictly fewer descendants, the measure behind every recursion over prerequisites |
| Graphs.TopologicalImpliesAcyclic | dependency_scheduler.go:99-108 | An order in which prerequisites come first rules out every cycle: why finishing the search is conclusive |
| Graphs.StackClosesCycle | dependency_scheduler.go:87-89 | Meeting a grey node again closes a real cycle |
| Schedule.ResolveDependencyRef | dependency_scheduler.go:54-76 | Returns a reference only if the entry denotes exactly that resource; fails only if it denotes none, several, or is malformed, and the error says which. An entry type:key resolves, to itself, if and only if some resource has that type key and that key; any other resolves to the type and key of the only resource with that key |
| Schedule.QualifiedResolves | dependency_scheduler.go:55-64 | Where type keys have no colon, an entry type:key stands for the resource with that type key and that key, for no other, and for none if either part is empty |
| Schedule.PlainResolves | dependency_scheduler.go:67-75 | An entry without a colon stands for the only resource with that key, by its type and key |
| Schedule.MatchesInOrder | dependency_scheduler.go:30 | The references listed for an ambiguous entry are those of all resources with that key, in their order |
| Schedule.IndexResources | dependency_scheduler.go:21-31 | Reports a duplicate if and only if two resources share a reference; otherwise the two indexes list exactly the references and those sharing each key |
| Schedule.UniqueExactly | resource/key.go:35-37 | Where type keys have no colon, references are unique if and only if no two resources share both type key and key |
| Schedule.ResolveAll | dependency_scheduler.go:35-42 | The item keeps the declared order of prerequisites, each resolved to the one resource it denotes |
| Schedule.BuildSchedule | dependency_scheduler.go:20-52 | Succeeds if and only if references are unique, every entry denotes exactly one resource and the resolved graph is acyclic; the error names a real defect. Items and their prerequisites are named type:key, after resources that the entries name |
| Schedule.ScheduleUnique | dependency_scheduler.go:33-49 | Resources have only one schedule |
| Schedule.ScheduleIsClosed | dependency_scheduler.go:24-30 | Items are uniquely named and every prerequisite is an item of the schedule |
| Outcomes.ObstacleIsFirst | dependency_scheduler.go:160-174 | Going through prerequisites in declared order finds the first that did not pass, with the right reason, exactly when there is one |
| Outcomes.OutcomeMeaning | dependency_scheduler.go:148-188 | A resource is skipped if and only if some prerequisite did not pass, for a reason naming the first such in declared order and saying whether it failed or was skipped; otherwise it fails if and only if its own results contain a failure |
| Outcomes.Passes | dependency_scheduler.go:225-231 | The loop over the results passes a resource exactly when none of them is a failure, so also when all are skips or there are none |
| Scheduler.DecideItem | dependency_scheduler.go:158-187 | The loop over one item's prerequisites decides not ready, skip with a reason, or ready, as the decision function does |
| Scheduler.ExaminePending | dependency_scheduler.go:144-188 | The loop over the pending items leaves its six variables as the coordinator's repeated steps do |
| SchedulerInvariant.DecisionMatches | dependency_scheduler.go:154-188 | In every reachable state the decision about an item agrees with the graph semantics, although a missing status reads as success |
| SchedulerInvariant.WaitingNotCompleted | dependency_scheduler.go:154-156 | An item still waiting is never already completed |
| SchedulerSteps.ConservedKept | dependency_scheduler.go:176-187 | No step loses or duplicates an item: waiting, running and emitted add up to one for every item |
| SchedulerSteps.CompletedKept | dependency_scheduler.go:232-240 | A reference is marked completed once, by the decision or worker that handles it |
| SchedulerSteps.LockKeptByWorker | dependency_scheduler.go:232-239 | At most one worker is between lock and unlock, and it holds the lock |
| SchedulerSteps.PassDecidesSomething | dependency_scheduler.go:143-205 | Every pass over an acyclic, resolved schedule runs or skips at least one pending item, so the unsatisfied-dependency branch is unreachable |
| SchedulerSteps.StepKeeps | dependency_scheduler.go:143-247 | Every step of every actor keeps the whole invariant |
| SchedulerSteps.InitHolds | dependency_scheduler.go:136-141 | The invariant holds at the start |
| SchedulerTermination.StepProgresses | dependency_scheduler.go:143-247 | Every step lowers a measure, so no interleaving is infinite |
| SchedulerTermination.NeverStuck | dependency_scheduler.go:207-246 | Until the run is done some step is enabled |
| SchedulerTermination.EveryRunTerminates | dependency_scheduler.go:143-247 | Every run is shorter than a bound computed from the number of items and workers, and can continue unless it is done |
| SchedulerTermination.EveryRunCompletes | dependency_scheduler.go:143-247 | Every run can be continued to one that is done, so complete runs exist for every schedule and number of workers |
| SchedulerTheorems.CompleteRunIsCorrect | dependency_scheduler.go:126-247 | A complete run emits exactly one group per resource, the one the graph semantics prescribes, and every final status is the resource's outcome |
| SchedulerTheorems.RunsAgree | dependency_scheduler.go:148-247 | Two complete runs over the same items emit the same groups, skip reasons included, for any pending order, worker count and interleaving |
| Schedule.SchedulableInAnyOrder | dependency_scheduler.go:20-52 | Reordering the resources does not change whether a schedule can be built |
| SchedulerTheorems.OrderOfResourcesIsIrrelevant | dependency_scheduler.go:20-247 | Reordering the resources changes no group emitted, for any worker counts and interleavings |
| SchedulerTheorems.StartedAfterPrerequisites | dependency_scheduler.go:160-187 | A resource in the hands of a worker has all its prerequisites completed with success, in every reachable state |
| SchedulerTheorems.OnlyWritesChange | dependency_scheduler.go:181-184 | The maps change only where a worker or a skip stores into them |
| SchedulerTheorems.MapsAreGuarded | dependency_scheduler.go:130-138 | A worker stores into a shared map, even an equal value, only while holding the lock; two workers never can at once; and when the coordinator reads or stores no worker can step |
| SchedulerTheorems.PrerequisitesEmittedFirst | dependency_scheduler.go:207-246 | A group is emitted only after those of all its prerequisites, at every point of every run |
| Pool.StepKeeps | validate.go:265-296 | Queued, held and sent items always add up to the input, and the output is closed only when every worker has exited |
| Pool.StepShrinks | validate.go:265-296 | Every step of the pool lowers a measure |
| Pool.EveryRunIsCorrect | validate.go:265-296 | With at least one worker every run is short, can continue exactly until the output is closed, and by then has sent every item exactly once |
| Pool.EveryRunCompletes | validate.go:265-296 | Every run can be continued until the output is closed |
| SchedulerTheorems.WorkerCount | validate.go:250-252 | There are five workers for each processor or as many as allowed, whichever is less, and always at least one |
| Discovery.Entries | discovery_config.go:35-66 | Succeeds if and only if every register is given and no two are equal; the error names a real defect |
| Discovery.Collect | discovery_validate.go:73-76 | Filling the map from results with unique registers gives exactly the function from register to passed |
| Discovery.ArrivalOrderIsIrrelevant | discovery_validate.go:25-79 | Whatever the interleaving, exactly the given entries arrive and their registers are still unique |
| Discovery.DiscoveredIsUnique | discovery_validate.go:73-78 | Only one map records the entries |
| Discovery.DiscoveryIsDeterministic | discovery_config.go:38-63 | The maps collected from any two complete runs over accepted entries are equal, whatever orders the entries were collected in |
| Discovery.ValidateDiscovery | discovery_validate.go:12-21 | The whole phase rejects an empty list and exactly the lists with a missing or repeated register, and otherwise records each register with whether it passed, for every interleaving |
| HealthVerdict.AnyFailed | serve.go:196-205 | True if and only if some result of some group is a failure |
| HealthVerdict.Validate | serve.go:285-315 | A validation that cannot start yields a failing result; otherwise the groups received, in order |
| HealthVerdict.VerdictOfRun | serve.go:196-205 | A complete run reports a failure if and only if some resource's outcome by the graph semantics is a failure |
| HealthVerdict.HasDependencies | dependency_scheduler.go:111-118 | True if and only if some resource has a prerequisite |
| HealthVerdict.PoolVerdict | validate.go:265-296 | A complete run of the plain pool reports a failure if and only if some resource's own results contain one |
| HealthVerdict.HealthStatus | validate.go:254-263 | Without dependencies 503 if and only if some resource's results contain a failure; with them if and only if the schedule cannot be built or some outcome by the graph is a failure; otherwise 200, for every interleaving |
| HealthVerdict.SchedulersAgree | validate.go:254-263 | On resources without dependencies the plain pool and the wave scheduler emit the same groups |
| HealthCache.StepKeeps | serve.go:227-249 | Every step of every request, and the passing of time, keep the cache invariant |
| HealthCache.SweepsNeverOverlap | serve.go:227-249 | A sweep starts only after the one before ended, and with a duration above zero any two are more than that apart for each sweep between them |
| HealthCache.NoSweepWhileFresh | serve.go:231-247 | When a request is about to sweep nothing stored is unexpired, and with a duration above zero every earlier sweep was stored and has expired |
| HealthCache.StoredBeforeAnswer | serve.go:242-248 | With a duration above zero every sweep has been stored by the time its request answers |
| HealthCache.FreshIsShared | serve.go:231-234 | A request that looks while the newest result is fresh is answered with it, at once or as soon as it unlocks |
| HealthCache.ArrivalIsServed | serve.go:174-178 | A request that arrives while the newest result is fresh is answered with it in one step, without the lock |
| HealthCache.EveryAnswerIsFresh | serve.go:171-183 | Every response is the request's own sweep or a stored one, unexpired when read |
| HealthCache.CachingOff | serve.go:251-265 | With a duration of zero or less nothing is stored and no two requests share a sweep |
| HealthCache.NeverStuck | serve.go:227-249 | While a request is unanswered some request can go on |
| HealthCache.RequestStepsAreFew | serve.go:171-249 | In every run n requests take at most 7n steps together |
| HealthCache.BurstIsAnswered | serve.go:171-249 | From every point of every run the requests can go on, without new arrivals or time passing, until all are answered |
| EditDistance.EditChangesByOne | toplevel_guard.go:209-211 | One edit anywhere in a string changes the distance to any other string by at most one |
| EditDistance.DistanceIsShortest | toplevel_guard.go:209-251 | The recurrence is the length of a shortest script of edits made one after another |
| EditDistance.FillRow | toplevel_guard.go:230-246 | The inner loop fills a row from the one above, with the recurrence in every cell |
| EditDistance.Levenshtein | toplevel_guard.go:212-251 | Two swapped rows compute the length of a shortest edit script |
| EditDistance.SuggestKey | toplevel_guard.go:190-207 | The answer is a legal key at distance one or two, if there is one, no farther than any other and alphabetically first among equally near ones; otherwise the empty string |
| EditDistance.BestIsUnique | toplevel_guard.go:187-189 | Only one key is the best, so the answer is deterministic |
| Ordering.SortedIsUnique | toplevel_guard.go:191-195 | Sorting the same keys gives the same sequence, so map order cannot show |
| Ordering.AtMostMeans | toplevel_guard.go:191-194 | The order of keys is alphabetical: a prefix comes first, and otherwise the first difference decides |
| PatternSyntax.IsRegexPattern | matchers/have_patterns.go:241-262 | Recognises exactly an optional mark, a slash, a body, a slash and flags from i, m and s |
| PatternSyntax.SplitPrinted | matchers/have_patterns.go:195-262 | A printed pattern is recognised and split into its polarity, body and flags, whatever the body |
| PatternSyntax.PrintSplit | matchers/have_patterns.go:195-262 | Every accepted text is the printing of what it splits into |
| PatternSyntax.RecognisedArePrinted | matchers/have_patterns.go:241-262 | The accepted texts are exactly an optional exclamation mark, a slash, a body, a slash and flags from i, m and s |
| PatternSyntax.RegexParses | matchers/have_patterns.go:195-222 | What the engine compiles is the body with the flags, if any, in a group in front of it |
| PatternSyntax.TextParses | matchers/have_patterns.go:161-180 | Text behind a backslash is literal whatever it is, and so is text that starts with none of the special characters |
| PatternSyntax.NewStringPattern | matchers/have_patterns.go:161-180 | One mark and then one backslash are taken off, and no more |
| PatternSyntax.NewRegexPattern | matchers/have_patterns.go:195-230 | Never looks past the end of an accepted text; fails if and only if the expression does not compile |
| PatternSyntax.SliceToPatterns | matchers/have_patterns.go:264-278 | One pattern for each text in order, or an error if and only if some expression does not compile |
| HavePatterns.ScanLine | matchers/have_patterns.go:82-94 | Overwriting the array while reading it leaves exactly the undecided patterns, in order, and finds the others that are not inverse |
| HavePatterns.Scan | matchers/have_patterns.go:76-109 | Every pattern is found exactly as often as it was asked for if it is satisfied, and never otherwise, although the scan may stop early |
| HavePatterns.LengthsDecide | matchers/have_patterns.go:113 | Comparing the two lengths decides whether all patterns are satisfied |
| HavePatterns.SubtractSlice | matchers/have_patterns.go:287-303 | Removes every occurrence of the given strings and keeps the others in order |
| HavePatterns.Report | matchers/have_patterns.go:111-117 | On failure the missing elements are exactly the unsatisfied ones in order, duplicates included |
| HavePatterns.HavePatternsMatcher.Match | matchers/have_patterns.go:32-118 | True if and only if every pattern is satisfied, with the found and missing elements exact, and the four kinds of error in their order |
| HavePatterns.MatchRegex | matchers/have_patterns.go:32-118 | A single expression with flags succeeds if and only if the engine matches the flagged expression on some line, or with a mark on none, and is an error if and only if that expression does not compile |
| HavePatterns.MatchText | matchers/have_patterns.go:32-118 | A single literal text succeeds if and only if some line contains it, or with a mark none does |
| CommandOutput.EscapedParses | resource/command.go:146-151 | An escaped line parses as literal text that must be present; its text is the line if and only if the line does not start with a backslash |
| CommandOutput.ReaderToSlice | resource/command.go:153-165 | One escaped pattern for each line that is not blank, in order |
| CommandOutput.PatternsByLine | resource/command.go:153-165 | There is a pattern for each line with something other than spaces on it, in their order, and for no other |
| CommandOutput.TrimMeans | resource/command.go:157 | Trimming takes spaces off both ends and nothing else |
| CommandOutput.OutputMatchesItsPatterns | resource/command.go:146-165 | The patterns written for any output are satisfied by that output, with any expression engine |
| CommandOutput.WriteThenMatch | resource/command.go:153-165 | Writing the patterns of an output and matching the same output always succeeds |
| MatcherLanguage.AndDecidedAt | matchers/and.go:19-29 | The first child that is not true decides a conjunction |
| MatcherLanguage.OrDecidedAt | matchers/or.go:20-33 | The first child that is not false decides a disjunction |
| MatcherLanguage.DeMorgan | matchers/not.go:16-22 | Negation turns and into or and back, success and error message alike, for every value |
| MatcherLanguage.GroupIgnoresOrder | matchers/and.go:19-29 | Whether a conjunction of given trees holds does not depend on their order |
| MatcherLanguage.NegatedGroup | matchers/and.go:19-29 | Whether the negation of a conjunction of given trees holds does not depend on their order if and only if there is not both a false and an erring one among them |
| MatcherLanguage.NegatedGroupCanDiffer | resource/gomega.go:202-210 | A group whose negation holds in one order and errs in the other |
| MatcherNodes.Node.Match | matchers/with_safe_transform.go:29-41 | A tree of objects has the outcome of its expression, and is left in the state that reports rely on |
| MatcherNodes.Node.MatchAnd | matchers/and.go:19-29 | The remembered child is the first that was not true, none if all were, and later children are never reached |
| MatcherNodes.Node.MatchOr | matchers/or.go:20-33 | The remembered child is the first that was true, none if none was or one erred first |
| MatcherNodes.Node.FollowTransforms | matchers/with_safe_transform.go:58-77 | The walk down a chain of transforms finds its end, the value the end was given, and the transforms that changed the value |
| MatcherNodes.Node.Result | matchers/and.go:31-51 | The report of a tree, matched or not, is that of the child remembered; no reference followed is ever null |
| MatcherNodes.BlameIsDeserved | matchers/or.go:43-55 | When a tree does not hold, the matcher its report names really is false of the value shown, or true of it where the negated message is used |
| MatcherNodes.ReportsAPart | matchers/not.go:24-30 | The matcher named is part of the tree, through negations, groups and transforms |
| MatcherNodes.ChainGivesTheValue | matchers/with_safe_transform.go:58-77 | Leaving out the transforms that changed nothing, the chain still leads from the value to the one at its end |
| MatcherNodes.WalkKeepsOutcome | matchers/with_safe_transform.go:29-41 | The end of a chain has, on its value, the outcome of the whole |
| MatcherNodes.Examine | resource/validate.go:204-236 | A new tree is matched once; there is a report if and only if it does not hold, and its blame is deserved |
| MatcherCompiler.Compile | resource/gomega.go:32-215 | Terminates with a tree that denotes the expectation, or with an error that its form deserves |
| MatcherCompiler.CompileSlice | resource/gomega.go:217-231 | Trees for all elements in order, or the error of the first element that has one |
| MatcherCompiler.CompileUse | resource/gomega.go:72-214 | The tree or error of each kind of matcher, with the argument it expects |
| MatcherCompiler.CompilePaths | resource/gomega.go:193-210 | One lookup for every path, in some order, or an error of some path |
| MatcherCompiler.TreeMeansWhatItDenotes | resource/gomega.go:32-231 | What a tree does is a meaning of its expectation, read directly: true, false or error for every value |
| MatcherCompiler.DenotedIsWellFormed | resource/gomega.go:32-231 | Only well-formed expectations have trees |
| MatcherCompiler.MatcherNames | resource/gomega.go:72-214 | No other name than the twenty of the language is a matcher |
| MatcherCompiler.ScalarArguments | resource/gomega.go:73-117 | Equality and the four comparisons take any argument, a length takes a number, patterns an array |
| MatcherCompiler.StringArguments | resource/gomega.go:75-99 | The five string matchers take a string and nothing else |
| MatcherCompiler.NestedArguments | resource/gomega.go:118-154 | Negation and keys take any well-formed expectation |
| MatcherCompiler.ElementArguments | resource/gomega.go:124-136 | An element is a map, a string or a number that is a well-formed expectation |
| MatcherCompiler.GroupArguments | resource/gomega.go:137-182 | Groups take arrays of well-formed expectations, which only consist-of may leave empty |
| MatcherCompiler.PathArguments | resource/gomega.go:193-210 | Paths take a map of well-formed expectations that is not empty |
| MatcherCompiler.RejectedIsIllFormed | resource/gomega.go:32-231 | Only ill-formed expectations have errors |
| MatcherCompiler.NoGroupIsEmpty | resource/gomega.go:18-30 | No conjunction, disjunction or named contain-elements anywhere in a tree is empty, so none passes without looking at the value |
| MatcherCompiler.TruncateIsTowardZero | resource/gomega.go:103-104 | A floating-point length loses its fraction, toward zero |
| MatcherCompiler.CompiledCorrectly | resource/gomega.go:32-231 | Compiling succeeds if and only if the expectation is well formed, and then the tree has its meaning and no empty group |
| MatcherCompiler.ExamineExpectation | resource/validate.go:148-236 | A value that cannot be had is an error, a stream is matched against patterns without compiling, and any other value gives a syntax error or an outcome that the expectation means; the report of a failure is deserved |
| MatcherOrder.MayExactly | resource/gomega.go:202-210 | The outcomes read off an expectation are exactly those of the trees it can be compiled to, over all orders of all its maps |
| MatcherOrder.TreeMay | resource/gomega.go:32-215 | Whatever orders its maps are read in, the outcome of the tree is one of those read off the expectation |
| MatcherOrder.TreeThatMay | resource/gomega.go:32-215 | For each outcome read off a well-formed expectation there are orders that give it |
| MatcherOrder.SomeTree | resource/gomega.go:32-231 | Every well-formed expectation has a tree |
| MatcherOrder.OutcomesAgreeExactly | resource/gomega.go:202-210 | All trees of an expectation have the same outcome, message included, if and only if only one can be read off it |
| MatcherOrder.VerdictsAgreeExactly | resource/gomega.go:202-210 | All trees agree on whether the check passes if and only if it may not both pass and fail |
| MatcherOrder.GroupVerdict | resource/gomega.go:193-210 | For a group of paths, if and only if not every path may be true while some path may not |
| MatcherOrder.NegatedGroupVerdict | matchers/not.go:16-22 | For a negated group, if and only if no path may be false while some may be an error or all may be true |
| MatcherOrder.SureVerdict | resource/gomega.go:32-231 | Where groups of two or more paths stand under neither not nor a collection matcher, and not before another alternative of an or, all trees agree on truth; under not they may agree on falsehood, with and and or exchanged |
| MatcherOrder.FixedTree | resource/gomega.go:202-210 | An expectation without a group of two or more paths has only one tree |
| MatcherOrder.NestedGroupCanDiffer | resource/gomega.go:202-210 | A negated group of one path passes or errs by the order of a group inside it |
| MatcherOrder.AlternativesCanDiffer | matchers/or.go:20-33 | An or without any negation passes or errs by the order of a group that is not its last alternative |
| Includes.WriteOver | syver_config.go:70-75 | Writing one map over another key by key keeps the later value, in any order |
| Includes.FoldAlias | store.go:346-360 | The alias adds includes and never replaces one |
| Includes.MergeJsonData | store.go:399-449 | Terminates on every include graph, with the result of the recursion |
| Includes.IncludesInOrder | store.go:408-447 | The includes gone through are those of the map: a file is merged if and only if some unskipped entry has a pattern that expands to it |
| Includes.ChildrenFollowKeys | store.go:408-447 | The included files come under the keys of the map, each key once and in alphabetical order, and under each key as its pattern expands |
| Includes.MergeEach | store.go:416-448 | The loop over the sorted includes skips the marked ones and stops at the first error |
| Includes.MergeMatches | store.go:436-447 | The loop over the files of one include reads, merges and overlays each in turn |
| Includes.MergedTree | store.go:399-449 | On a finite include tree the merge meets the depth cap if and only if the tree is too high, and else overlays the files in preorder |
| Includes.LastWriterWins | syver_config.go:60-75 | A slot is filled if and only if some file fills it, with the value of the last that does |
| Includes.MergedIsLastWriters | store.go:399-449 | A successful merge holds, for each section, type and key, the value from the last file in preorder |
| Includes.TreeOfMerged | store.go:399-449 | A merge succeeds only where the includes unfold to a finite tree |
| Includes.LongChain | store.go:400-403 | The depth error is only reported where there is a chain of includes that long |
| Includes.LongChainFails | store.go:400-403 | A chain of 49 unskipped includes or more never merges |
| Includes.DepthErrorExactly | store.go:399-449 | When all files that unskipped entries name load, the depth error is reported if and only if some chain of them has 49, and otherwise the merge succeeds |
| Includes.ReachableCycleFails | store.go:399-449 | Every reachable cycle of unskipped includes makes the merge fail |
| Acl.FormatAceRights | system/file_acl.go:119-155 | Prints the letter of each of the seven composites, or the tokens held and the rest in hexadecimal |
| Acl.NameRights | system/file_acl.go:137-144 | The loop over the table collects the tokens of the rights held and clears their bits |
| Acl.NamesAreRead | system/file_acl.go:77-101 | The printing table agrees with the numerical values that the names stand for |
| Acl.PrintingOrder | system/file_acl.go:77-101 | The tokens of the table, in the order they are printed |
| Acl.TokensInOrder | system/file_acl.go:137-144 | The tokens are those of all rights held, in the order of the table |
| Acl.RightsListed | system/file_acl.go:135-155 | A mask without a letter is the tokens of its rights, then the bits without a name in hexadecimal, with commas |
| Acl.HexRoundTrip | system/file_acl.go:148-150 | Hexadecimal digits without leading zeros are read back |
| Acl.NothingLost | system/file_acl.go:135-150 | The named bits and the leftover always make up the mask |
| Acl.RightsRoundTrip | system/file_acl.go:119-155 | A decoder recovers every 32-bit mask from its text, except that generic-all reads back as full control |
| Acl.SameTextSameRights | system/file_acl.go:103-155 | Two masks print alike if and only if they are equal or are the two spellings of full control |
| Acl.FormatAce | system/file_acl.go:187-204 | The principal, the groups that apply, in the order I, DENY, OI, CI, IO, NP and for the bits they stand for, and the rights |
| Acl.AceRoundTrip | system/file_acl.go:157-204 | Principal, allow or deny, the low five flag bits and the rights are read back from the text, colons in the principal included |
| Meta.FlattenMeta | outputs/meta.go:48-54 | The entries of a map are those of the recursion |
| Meta.FlattenMetaValue | outputs/meta.go:56-100 | Terminates on every value graph, appending the entries of one value to those before; a map with other keys is first read into one with rendered keys |
| Meta.FlattenEach | outputs/meta.go:69-96 | The loop over sorted keys or indices appends the entries of each child in order |
| Meta.EachLeafOnce | outputs/meta.go:37-100 | In whatever order maps are read, a path is shown exactly once, with the right text, if it leads to a leaf, an empty container or the cap, and not at all otherwise |
| Meta.NoLongPath | outputs/meta.go:10-13 | No path has more than ten segments and no two entries share a path, cyclic graphs included |
| MetaOrder.EntriesInOrder | outputs/meta.go:22-31 | Entries come in the order of their paths: keys alphabetically and indices upwards, at every level |
| Meta.RenderKeys | outputs/meta.go:77-81 | Reading a map with other keys gives a map with each rendering, whose value is that of some key so rendered |
| MetaOrder.RenderingIsUnique | outputs/meta.go:77-81 | The intermediate map with rendered keys is the same in all orders if and only if keys that render alike hold the same value |
| MetaOrder.CollisionDropsAValue | outputs/meta.go:77-81 | Fewer values are found than the map holds if and only if two keys render alike |
| MetaOrder.AlikeExactly | outputs/meta.go:56-100 | Two values flatten to the same entries at a path, in all orders, if and only if they show the same text or offer, segment by segment, values that do |
| MetaOrder.MixedIsSteady | outputs/meta.go:75-84 | A map with other keys flattens the same way in all orders if and only if any two of its keys that render alike hold values that flatten alike one level down |
| MetaOrder.SteadyExactly | outputs/meta.go:48-54 | Metadata flattens the same way in all orders if and only if each value at the top does, by the same condition |
| MetaOrder.StringKeysAreSteady | outputs/meta.go:25-28 | Where all maps have strings as keys the condition holds of every value |
| MetaOrder.OrderCanShow | outputs/meta.go:75-84 | A map with two keys that render alike, which shows one value or the other by the order it is read in |

## Left out

- Probing of the host, HTTP serving, the command line, YAML and JSON decoding, templates, the output formats
  and the Windows job objects: foreign calls and library behaviour. Validating a resource is an arbitrary
  function from its reference to a list of result codes, which loses nothing because a run validates each once.
- Payloads of resources, and everything in a result but its code: the scheduler does not read them.
- Cancellation: contexts are not modelled, and the consumer is assumed to receive until the channel is closed.
- Sending on a channel is one step together with receiving: a worker's send waits for no other actor.
- Wall-clock time: the cache has a logical clock that may advance at any moment; go-cache's rule that an item
  is still good at its expiry instant is built in, and its janitor is an action that may happen after expiry.
- The health handler is a transition system, not a class: what matters about it is the interleaving of
  requests that share its mutex and its cache.
- Regular expressions, gjson lookups, semantic versions and the leaf matchers of gomega: arbitrary functions
  with a value, a verdict or an error. Collection matchers are arbitrary functions of the outcomes of their
  children on arbitrary values, so the objects below a collection matcher have no state here,
  and `May` gives a collection matcher the outcomes of its own trees.
- A second match on the same tree: trees are built for one check, and the transform's changed mark is never
  cleared. Reports are modelled by the matcher, polarity, value and transforms they show, not by their words.
- MatcherNodes.Node.Match: for one match on a new tree, as every check does.
- MatcherNodes.Node.Result: FailureResult and NegatedFailureResult are one method with a flag, because they differ
  only in which of them they call.
- MatcherCompiler.TruncateIsTowardZero: does not model lengths beyond the range of a 64-bit integer, which Go leaves to
  the platform; reals stand for floating-point numbers and integers are unbounded.
- Scanner limits, reading errors and byte decoding: input is a sequence of lines, and strings are sequences of
  characters.
- PatternSyntax.NewRegexPattern: compiling is a yes or no of the engine, without its message.
- The map of resources of each type: an include file is a map from section, type and key to a value, and Go's
  warnings about duplicate and unknown keys are not modelled. Globbing, joining and reading are arbitrary functions.
- Includes.MergeJsonData: an error is the innermost one, without the words wrapped around it on the way up.
- The spelling of a metadata path as text, where two paths may share one spelling; entries carry their segments.
  Rendering a key that is not a string is an arbitrary function, and values are told apart by number.
- The retry loop of the validate command, metrics and the add commands: only easy members.
