# I2AS core: a verified model

I2AS is an instrument-automation framework: a station of instruments, procedures that a client fills in and queues,
an engine that runs them on a thread of its own, and run files that a reader may open while they are written. This
project models the parts of it where the logic is hardest and proves what they promise.

* **Conditional forms** (`Forms`, `FormGroups`, `GuardGraph`, `FormValidation`, `FormCodec`). A procedure's form is a list
  of guarded blocks. The evaluator activates the blocks whose guards hold, fills their defaults and repeats. Proved: the
  active set is the least one the guards allow, whatever the order, where no guard can tell same-named defaults apart; how
  many passes it takes; what the guard-graph analysis reports, and exactly when what it reports stays out; and that a
  client that only has the wire form rebuilds the same form.
* **Run files** (`NestedData`, `DataSchemas`, `RunFile`, `StoredValues`, `RunReader`, `RunProgress`). A table allocated in
  advance is filled column by column and then stamped; a reader counts the stamps. Proved of one value: which are stored,
  and what the file shows at every position of a padded array. Proved over whole runs of the writer, failing saves
  included, at every instant between two writes: which points are counted and that the saved ones are complete; that
  reading is Python slicing of columns that hold each save's own values and, where a save leaves a column out, whatever a
  failed attempt at its point left there; and that a count may be taken first and the data read later.
* **The run queue across two threads** (`QueueProtocol`, `QueueSeam`). `QueueProtocol` is the transition system of both
  threads and their FIFO mailboxes, with questions that time out and are answered all the same; `QueueSeam` is the objects
  that make those steps, each method proved to be one step. Proved over every interleaving: which popped run is built, in
  which order, and what each broadcast of the queue shows.
* **The HTML sanitizer** (`Sanitizer`, `SafeMarkup`). A stack machine over the parser's events: which attributes and links
  survive, and its output read back character by character.
* **The manifest checker** (`ManifestChecker`), the **control contract's JSON round trip** (`Messages`, `Contract`), the
  **config version
  store** (`ConfigCatalog`), the **enforcement decision** (`Conditions`) and the **duration estimate** (`Estimates`).

`PyValues`, `PyStrings` and `ParamSpecs` hold what several of them share: Python's equality and order, and the declared
parameters. Where the source updates objects in place, the model has classes and methods proved against functions of the
old state; where it computes values, functions. Numbers that the source holds as floats are exact reals.

## Where the code and its documentation disagree

The model follows the code; in each case a lemma shows what the code does and, where the code meets its documentation
under a condition, the condition is proved.

* `_cyclic_nodes` says it returns the nodes on a cycle (`i2as/core/plan.py:1090`). It returns the nodes on or downstream of
  one, and those on a cycle alone exactly when no edge leads off the cycles: `GuardGraph.SurvivorsAreOnCyclesIff`, with
  `GuardGraph.SurvivorNeedNotBeOnACycle` as the witness.
* `validate_form` says of a block on a guard cycle that its parameters can never appear (`i2as/core/plan.py:1081-1084`).
  They never do exactly when, evaluating the form without the reported blocks, none of their guards holds
  (`FormValidation.ReportedStayOutIff`). So it is when every parameter has one introducer and the caller answers none of
  them (`FormValidation.CyclicBlocksStayOut`); the witnesses that they can are `FormValidation.TheCallerCanActivateAnyBlock`
  and `FormValidation.ReportedYetActive`.
* `validate_form` says it reports a parameter whose presence depends on itself directly (`i2as/core/plan.py:1043-1044`). The
  graph leaves out the edge from a block to itself, so the report is complete exactly when every block that reads its own
  parameter is reported for another reason: `FormValidation.ReportIsCompleteIff`. The fault missed is real
  (`FormValidation.SelfGuardedStaysOut`); `FormValidation.SelfGuardIsNotReported` is the witness.
* It says of a guard on a parameter no block declares that nothing can ever satisfy it (`i2as/core/plan.py:1039-1041`). The
  caller can (`FormValidation.TheCallerCanActivateAnyBlock`): such a condition is met exactly when the caller answers the
  parameter with an accepted value, `FormValidation.UndeclaredConditionMetIff`.
* The reader says its count never includes a half-written point (`i2as/core/data_reader.py:706-708`). The writer stamps
  before it encodes the snapshot, so a snapshot that cannot be encoded leaves an orphaned stamp: a counted point whose save
  failed, and which a retry rewrites while it is counted. Over all runs the count is the number of saved points exactly
  when the last attempt that got as far as its timestamp could encode its snapshot
  (`RunProgress.CountIsSavedIffNotOrphaned`); a retry that fails on a column leaves the stamp
  (`RunProgress.AColumnErrorKeepsTheOrphan`).
* Without a reading loop, a raw block value that is a scalar, or a single row of the right width, raises IndexError where
  ValueError is documented (`i2as/core/data_manager.py:417-425`): an axis it lacks is read before it is refused. It happens
  exactly for those values (`RunFile.MissingAxisIff`); `RunFile.AFlatBlockLacksAnAxis` is the witness.
* `sanitize_html` says the text always survives (`i2as/blocks/markup.py:123`). It does exactly when none of it comes inside a
  dropped-content tag: `Sanitizer.TextSurvivesIffNoneDropped`.
* `decide` says it ignores the order of its conditions (`i2as/core/conditions.py:166-168`). It does exactly when no two
  different criticals share a key and no instrument's smallest hold key is shared by two different holds:
  `Conditions.OrderIsIgnoredIffNoTies`.
* `_check` ignores the keywords beside a `$ref`, takes `true` where 1 is listed and refuses 1.0 for an integer; draft 2020-12
  of JSON Schema (sections 8.2.3.1 of Core, 6.1.1 and 6.1.2 of Validation) does otherwise.
  Each has its exact condition, `ManifestChecker.KeywordsBesideAReferenceAreIgnored`, `ManifestChecker.ListsAgreeIff` and
  `ManifestChecker.TypesAgreeIff`; for schemas of the manifest's form `ManifestChecker.AcceptedIffValidAndClean` says of
  every document whether the two agree on it.
* The contract says every type validates eagerly (`i2as/core/events.py:108-111`). Several events leave fields unchecked, and
  a message comes back from its JSON exactly when those hold JSON values: `Messages.SurvivesIff`.
* Saving says the newest version always matches the active files (`i2as/core/config_catalog.py:188-189`). After
  restores it does exactly when the version restored last has the newest one's devices and the monitor file restored last
  is the newest one's: `ConfigCatalog.NewestIsActiveIff`, with `ConfigCatalog.NewestNeedNotBeActive` as the witness. A
  restore may leave a mix of versions: `ConfigCatalog.RestoreCanMixVersions`.
* The two modelling assumptions are said to be on every estimate (`i2as/core/estimates.py:61-63`). They are exactly when the
  setpoints could be read: `Estimates.AssumptionsAreExplicit`.
* `publish_queue` says the broadcast shows the queue as the client had it when it asked
  (`i2as/core/orchestrator_proxy.py:626-629`). It shows what was pushed last, which is that queue exactly when no later push
  has changed it: `QueueProtocol.PublishShowsItsOwnQueueIff`, with `QueueProtocol.PublishCanShowALaterQueue` as the witness.
* A broadcast asked for on the engine's own thread pushes no snapshot, so it may show a queue older than the client's
  (`QueueProtocol.EngineBroadcastCanBeStale`). It is current exactly when the client's queue is what it pushed last:
  `QueueProtocol.BroadcastIsCurrentIff`.

## Model

| member | source | states |
|---|---|---|
| Forms.ActiveIffGuardHolds | i2as/core/plan.py:867-879 | For every form and answers: on exit a block is active exactly when its guard holds on the final answers, the caller's answers are untouched, and every other answer is the default of an active block |
| Forms.ActiveIffEveryConditionIsAnswered | i2as/core/plan.py:724-765 | On exit a block is active exactly when each condition of its guard has, somewhere in its list of accepted values, one that equals the final answer: texts character for character, numbers by value, lists item by item, and a boolean only a boolean |
| Forms.ResolvingAgainChangesNothing | i2as/core/plan.py:867-879 | Resolving again with the final answers gives the same blocks and answers |
| Forms.ActiveSetIsLeast | i2as/core/plan.py:867-879 | The active set lies inside every set of blocks closed under "guard holds on the answers and the active defaults", and is itself closed when no guard can tell same-named defaults apart: it is the least such set |
| Forms.AnyOrderSettlesTheSame | i2as/core/plan.py:871-879 | Where no guard can tell the defaults declared for one name apart, activating ready blocks one at a time in any order ends with the blocks, and with one default per name also the answers, of the batched passes |
| Forms.DeclarationOrderDoesNotMatter | i2as/core/plan.py:867-879 | Where no guard can tell the defaults declared for one name apart, the same blocks declared in another order activate the same blocks |
| Forms.ActivationEndsAChain | i2as/core/plan.py:871-879 | A block that activates in pass p + 1 ends a chain of p + 1 different blocks, each introducing what the next one's guard reads |
| Forms.PassesBoundedByChainDepth | i2as/core/plan.py:871-879 | The evaluation has settled after as many passes as the longest guard chain has blocks |
| Forms.DifferingDefaultsDependOnOrder | i2as/core/plan.py:875-878 | With two defaults for one name the block declared first decides, so neither order independence nor leastness holds |
| FormGroups.Activate | i2as/core/plan.py:867-879 | The activation loop over the remaining blocks ends with the active set of the evaluation |
| FormGroups.SetDefaults | i2as/core/plan.py:877-878 | Filling a block's defaults one by one adds those not answered and changes none |
| FormGroups.AddParams | i2as/core/plan.py:889-895 | A block's parameters are appended in order, or a name the group already has is refused |
| FormGroups.MergeBlock | i2as/core/plan.py:885-895 | One block merged: the key order, titles and parameters are those of the blocks merged so far and this one, or the clashing name is reported |
| FormGroups.ResolveForm | i2as/core/plan.py:829-896 | Fails exactly when two active blocks of one key share a parameter name, naming such a pair; otherwise the groups, titles and parameters of the active blocks in declaration order |
| FormGroups.EveryParameterExactlyOnce | i2as/core/plan.py:881-896 | Without a clash every active parameter, with its whole declaration, stands at one place of the one group with its block's key, and no other parameter there has its name |
| FormGroups.PlacesFollowTheDeclaration | i2as/core/plan.py:885-895 | In a group the places follow the order of the blocks and, within a block, of its parameters; so no two parameters share one |
| FormGroups.EveryPlaceIsAParameter | i2as/core/plan.py:885-895 | Every place of a group is that of a parameter of a block with the group's key |
| FormGroups.GroupsFollowTheirFirstBlocks | i2as/core/plan.py:881-896 | There is one group for each key, in the order in which the keys are first met, titled by the first block that has the key |
| FormGroups.ActiveInOrder | i2as/core/plan.py:884 | The blocks merged are exactly the active ones, each once, in declaration order |
| GuardGraph.CyclicNodes | i2as/core/plan.py:1089-1117 | Ends, and returns in ascending order the largest set of nodes each of which has a predecessor in the set |
| GuardGraph.CountIncoming | i2as/core/plan.py:1103-1106 | Every node's count is the number of its predecessors |
| GuardGraph.PeelOne | i2as/core/plan.py:1110-1116 | Dropping one node keeps every count equal to the predecessors left, and queues exactly the nodes whose count is zero |
| GuardGraph.LargestSelfFedIsAfterCycle | i2as/core/plan.py:1089-1117 | That set is the nodes on or downstream of a cycle, and empty exactly when the graph has no cycle |
| GuardGraph.SurvivorsAreOnCyclesIff | i2as/core/plan.py:1089-1117 | The nodes returned all lie on cycles exactly when every edge leaving a node on a cycle ends at a node on a cycle |
| GuardGraph.SurvivorNeedNotBeOnACycle | i2as/core/plan.py:1089-1117 | A node downstream of a cycle is returned although it lies on none |
| FormValidation.ValidateForm | i2as/core/plan.py:1027-1086 | Reports exactly the blocks without parameters, the guards on parameters nothing declares and the blocks on or after a guard cycle; nothing exactly when there are none |
| FormValidation.IntroducedBy | i2as/core/plan.py:1056-1061 | The dictionary maps each declared parameter to the blocks that introduce it |
| FormValidation.GuardEdges | i2as/core/plan.py:1074-1079 | The edges drawn are those from each block to the other blocks whose guards read what it introduces |
| FormValidation.TheCallerCanActivateAnyBlock | i2as/core/plan.py:721-737 | Any validly guarded block activates for some answers, whatever is reported of it |
| FormValidation.AnyChoiceActivates | i2as/core/plan.py:733-737 | Answering each condition with any of the values it accepts, whichever place they have in the list, activates the block |
| FormValidation.AnotherAnswerKeepsOut | i2as/core/plan.py:733-737 | One condition answered with something equal to none of its accepted values keeps the block out |
| FormValidation.AnsweredGuardDecides | i2as/core/plan.py:724-737 | When the caller answers every condition of a guard, these answers alone decide whether the block is active, whatever the other blocks are |
| FormValidation.UndeclaredGuardNeedsTheCaller | i2as/core/plan.py:1063-1069 | A block guarded on an undeclared parameter is active only if the caller answers it |
| FormValidation.UndeclaredConditionMetIff | i2as/core/plan.py:1039-1041 | A condition on an undeclared parameter is met on the final answers exactly when the caller answers it with an accepted value |
| FormValidation.StayOutIff | i2as/core/plan.py:867-879 | For every form, answers and set of blocks: those blocks stay out exactly when none of their guards holds on the answers of the form evaluated without them, and then both evaluations end with the same answers |
| FormValidation.ReportedStayOutIff | i2as/core/plan.py:1071-1085 | The parameters of the blocks reported for a guard cycle never appear exactly when none of those blocks' guards holds on the answers of the form without them |
| FormValidation.CyclicBlocksStayOut | i2as/core/plan.py:1071-1085 | With one introducer per parameter and no guarded parameter answered, a block on or after a guard cycle stays out |
| FormValidation.ReportedYetActive | i2as/core/plan.py:1081-1085 | A block reported as part of a cycle is active on the defaults when a third block introduces the parameter too |
| FormValidation.ReportIsCompleteIff | i2as/core/plan.py:1043-1079 | For every form, the blocks reported are those on or after a cycle of the graph with direct self-dependence drawn in, exactly when every block reading a parameter it introduces is reported for another reason |
| FormValidation.SelfGuardedStaysOut | i2as/core/plan.py:867-879 | In every form a block that reads an unanswered parameter which only it introduces never activates |
| FormValidation.SelfGuardIsNotReported | i2as/core/plan.py:1078 | The witness: a block guarded only on its own parameter is on no cycle of the graph and yet never appears unless answered |
| FormCodec.SpecRoundTrip | i2as/core/plan.py:899-978 | Rebuilding a rendered valid declaration, table columns included, gives it back |
| FormCodec.BlocksRoundTrip | i2as/core/procedure_catalog.py:224-259 | Rendering a valid form and rebuilding it is the identity, guards, titles and parameter order included |
| FormCodec.RenderingUndoesRebuildingIff | i2as/core/plan.py:899-978 | An accepted wire parameter is a valid declaration, and is rendered back as it was exactly when it is canonical: every key given, nothing null that reads as missing, no column twice |
| FormCodec.AcceptedFormsAreStable | i2as/core/plan.py:981-1024 | Any form accepted off the wire, canonical or not, is a valid declaration, and rendering it and rebuilding that gives the same form |
| FormCodec.ScalarIsAcceptedIff | i2as/core/plan.py:503-567 | A scalar off the wire is accepted exactly when its default is of its kind and is one of the choices, or within the bounds where there are none; choices come without bounds, only numbers have bounds |
| FormCodec.KeysMean | i2as/core/plan.py:899-946 | Each key of an accepted wire parameter arrives under its own field; a missing or empty one reads as the absence it stands for |
| FormCodec.BlockKeysMean | i2as/core/plan.py:1006-1024 | Each key of an accepted wire block arrives under its own field, and a block without a title is titled by its key |
| FormCodec.RebuildBlocks | i2as/core/plan.py:981-1024 | The rebuilding loops give every block in order or the first error |
| NestedData.LeavesIffMatching | i2as/core/plan.py:1270-1289 | The leaves are found exactly when the nesting has the shape |
| NestedData.LeavesCount | i2as/core/plan.py:1270-1289 | There are as many leaves as the product of the shape |
| NestedData.LeavesAreRowMajor | i2as/core/plan.py:1284-1289 | The leaf at a multi-index stands at its row-major offset |
| DataSchemas.Validate | i2as/core/plan.py:1475-1550 | Lists exactly the problems there are: each declared key missing, each undeclared key given, each value not of its column's shape and, where leaves are typed, each column with a leaf that is no real number or no integer; none exactly when the datapoint conforms |
| DataSchemas.ValidDatapointIsStoredVerbatim | i2as/core/data_manager.py:369-441 | A conforming datapoint with numeric leaves is saved without error, every column as its leaves in row-major order: nothing padded, refused or skipped |
| RunFile.PaddedAt | i2as/core/data_manager.py:398-401 | Padding keeps the first samples of every group where they belong and fills the rest of the group with NaN |
| RunFile.StoredRowFits | i2as/core/data_manager.py:369-437 | Whatever is stored fills its column's cell exactly |
| RunFile.MatchingValueIsStoredVerbatim | i2as/core/data_manager.py:369-437 | A numeric value of the column's shape is stored as its leaves |
| StoredValues.SampleGridStores | i2as/core/data_manager.py:381-409 | Of n readings per point, the stored sample (i, j, k) is the reading (i, j, k) when k < n and NaN otherwise, for any n |
| StoredValues.BlockStores | i2as/core/data_manager.py:410-436 | Without a reading loop the stored block shows reading (r, c) in row r and column c for the rows given and NaN below them; rows too many are dropped |
| StoredValues.LoopedBlockStores | i2as/core/data_manager.py:410-436 | The same at every point of a reading loop |
| StoredValues.ScalarGridStores | i2as/core/data_manager.py:372-380 | The stored value (i, j) is the reading (i, j) |
| StoredValues.SweepStores | i2as/core/data_manager.py:370-371 | A sweep column stores the one number given |
| StoredValues.StoredIff | i2as/core/data_manager.py:369-436 | Exactly which values are stored, and so which are refused: a number for a sweep column; numbers alone in an array of shape [loop1, loop2], [loop1, loop2, n] or [loop1, loop2, rows, width], for any n and any rows above zero, the loop axes left off a block without a reading loop |
| RunFile.MissingAxisIff | i2as/core/data_manager.py:411-436 | A value fails on an axis it lacks exactly when no reading loop is configured, its column is a block and it is a number or a single row as wide as the block |
| RunFile.DataManager.constructor | i2as/core/data_manager.py:228-320 | The file starts with every column allocated and blank, no timestamp, no snapshot and nothing saved |
| RunFile.DataManager.SaveDatapoint | i2as/core/data_manager.py:328-454 | Refused when closed or out of range; otherwise passes through the listed file contents one by one, ends with the columns written, the timestamp after them and the snapshot last, and moves the last saved index only when all of it succeeded |
| RunFile.DataManager.SaveColumns | i2as/core/data_manager.py:369-441 | Columns are written in the datapoint's order up to the first that is refused; unknown ones are skipped |
| RunFile.DataManager.Close | i2as/core/data_manager.py:485-513 | Trims every dataset to the points saved when some but not all were, dataset by dataset, and closes once |
| RunReader.PrefixCount | i2as/core/data_reader.py:729 | Counting set timestamps gives the length of the written prefix |
| RunReader.ResolvedIsPythonSlice | i2as/core/data_reader.py:601-628 | Refused exactly for a step below one; otherwise the bounds resolved against the length select, from the whole sequence, the positions at and after the start and before the stop, a negative bound counted back from the end, that are a multiple of the step from the first of them |
| RunReader.ReadIsPythonSlice | i2as/core/data_reader.py:810-816 | Reading a column selects those positions of the written prefix and never reaches the tail |
| RunReader.InSliceByBounds | i2as/core/data_reader.py:627 | A position is selected by its place relative to each bound as given, unclamped, exactly when it lies a multiple of the step after the resolved, clamped start and before the resolved stop |
| RunReader.OneBoundReads | i2as/core/data_reader.py:608-616 | start = -n reads the last n points, stop = -n all but the last n, start = n all but the first n, stop = n the first n |
| RunReader.BoundsBeyondTheEndsClamp | i2as/core/data_reader.py:601-628 | A start at or before the first point reads as no start and a stop at or past the last as no stop, whatever the other bound and the step; with no step, a start past the last point or a stop at or before the first selects nothing |
| RunReader.RunHandle.NPoints | i2as/core/data_reader.py:703-732 | The count of the set timestamps, or the remembered allocation once the file was full; remembers only then |
| RunReader.RunHandle.ReadSlice | i2as/core/data_reader.py:774-816 | The slice of the column within the count, or the refusal of an unknown column or a step that is not positive |
| RunProgress.RunRenders | i2as/core/data_manager.py:328-454 | After any run of attempts, failed ones retried, the file is exactly that of the points saved, the rows failed attempts left at the next point and the snapshots |
| RunProgress.EveryInstantIsACompletePrefix | i2as/core/data_manager.py:359-454 | At every instant of every attempt of any run, failed attempts and snapshots that cannot be encoded included: the set timestamps are a prefix and the count is its length, namely the saved points and, once the attempt has stamped its own or while a stamp is orphaned, one more; every saved point, and the attempt's own once stamped, has all the columns of its own save on disk |
| RunProgress.CountIsSavedIffNotOrphaned | i2as/core/data_manager.py:443-452 | After any run the count is the number of saved points exactly when the last attempt that got as far as its timestamp, if any, could encode its snapshot |
| RunProgress.ReadingAClosedRun | i2as/core/data_reader.py:810-816 | After any run and close that leave no orphaned first point, reading is Python slicing, for all bounds and positive steps, of the column in which each saved point has the row of the latest attempt at it that wrote the column, and NaN where none did; with nothing saved it is empty although the table keeps its allocation |
| RunProgress.SavesAreRead | i2as/core/data_manager.py:369-441 | In any run, failed attempts included, that column holds each save's own value wherever the save gave one |
| RunProgress.FileHoldsTheLatestRows | i2as/core/data_manager.py:369-441 | After any run every row of every column is what the latest attempt at its point stored there, and NaN where none did |
| RunProgress.AFailedAttemptIsReadThrough | i2as/core/data_manager.py:369-441 | A save that leaves a column out is read with the value a failed attempt before it wrote |
| RunProgress.CleanRunsSaveWhatTheyAreGiven | i2as/core/data_manager.py:369-441 | So when every attempt succeeds a saved column holds each save's own stored value, and NaN where a save omitted it |
| RunProgress.FullCountStaysRight | i2as/core/data_reader.py:719-732 | A count that reaches the allocation at any instant of any attempt, and so may be remembered, is right at every later instant, after every later attempt, and past the close exactly unless the run ends orphaned with more than one point allocated |
| RunProgress.ReadingAfterCounting | i2as/core/data_reader.py:805-816 | Counting first and reading later: a read of no more points than were saved for good when they were counted gives the same at that instant, at any later one of that attempt or a later one, at rest after any later run, and after the close |
| RunProgress.CloseCountsTheSaved | i2as/core/data_manager.py:485-513 | After any run and close the count is the number of saved points exactly unless nothing was saved and a stamp is orphaned |
| RunProgress.ReadingWhileTrimming | i2as/core/data_manager.py:498-508 | When no stamp is orphaned, with the datasets trimmed only in part, count and slices are those of the closed file |
| QueueProtocol.BuiltAtMostOnceInOrder | i2as/core/orchestrator_proxy.py:607-614 | In every interleaving each popped spec is built at most once and in pop order; one neither built nor in flight failed to build or was popped for a question that timed out |
| QueueProtocol.TimedOutPopIsNeverBuilt | i2as/core/instrument_host.py:262-290 | A spec popped for a question that timed out is lost: no continuation builds it |
| QueueProtocol.PendingIffInMailbox | i2as/core/instrument_host.py:262-290 | In every run a question is unanswered exactly while it is in the client's mailbox, timed out or not |
| QueueProtocol.EveryQuestionIsAnswered | i2as/core/instrument_host.py:160-167 | Whatever has timed out, a client that goes on to run its mailbox can, and every question asked is then answered |
| QueueProtocol.PopsComeFromTheFront | i2as/core/orchestrator_proxy.py:607-614 | While the client only adds, the specs popped and those waiting are in order those of the start and those added: none is lost or reordered |
| QueueProtocol.PopsAreTheHeads | i2as/core/orchestrator_proxy.py:607-614 | In every run each spec popped is the head of the queue the client has then, as the client's own steps alone determine it |
| QueueProtocol.ThreadedBuildsTheInlineRuns | i2as/core/orchestrator_proxy.py:590-614 | Without timeouts and failures the threaded run builds what the single-threaded run builds, all but the spec in flight |
| QueueProtocol.PushesAreTheHistory | i2as/core/orchestrator_proxy.py:635-640 | After any run what has been pushed is the installed queue followed by the whole queue the client had at each publish, read off the run's actions alone; so are the commands and the requests posted |
| QueueProtocol.BroadcastsAreFresh | i2as/core/orchestrator_proxy.py:616-641 | After any run every broadcast shows the queue the client had at some publish no earlier than the one it answers, none goes back to an older publish, each publish is answered once in order, and once the mailbox is drained the last broadcast is the queue at the last publish; the publishes and their queues are read off the run's actions |
| QueueProtocol.PublishShowsItsOwnQueueIff | i2as/core/orchestrator_proxy.py:616-641 | After any run a publish, served, broadcasts the queue the client had when it asked exactly when the queue at the client's last publish is that queue |
| QueueProtocol.CommandsHandledInOrder | i2as/core/instrument_host.py:251-260 | The commands handled, then those waiting, are the commands of the run's submissions, once each and in order |
| QueueProtocol.BroadcastIsCurrentIff | i2as/core/orchestrator_proxy.py:635-641 | After any run a broadcast, of either thread's asking, shows the queue the client has exactly when that is the queue it had at its last publish |
| QueueSeam.Question.Run | i2as/core/instrument_host.py:160-167 | Running the question stores its value or its error and releases the asker either way |
| QueueSeam.Seam.AnswerNext | i2as/core/instrument_host.py:160-167 | The client answering the next question is the protocol's answer step |
| QueueSeam.Seam.AnswerRaising | i2as/core/instrument_host.py:160-167 | A question that raises is the protocol's raising step, and the queue is untouched |
| QueueSeam.Seam.BeginPull | i2as/core/instrument_host.py:278-279 | Posting a question and starting to wait is the protocol's pull step |
| QueueSeam.Seam.EndPull | i2as/core/instrument_host.py:280-290 | The wait ends as the protocol's timeout or receive step; a run is built exactly when the answer holds a spec, nothing was raised and building succeeds |
| QueueSeam.Seam.PushSnapshot | i2as/core/orchestrator_proxy.py:635-640 | The first half of a publish replaces the cached snapshot with the queue |
| QueueSeam.Seam.PostPublish | i2as/core/orchestrator_proxy.py:641 | The second half posts the request to broadcast it |
| QueueSeam.Seam.ServeNext | i2as/core/instrument_host.py:190-203 | The engine running the next posted call is the protocol's serve step, a broadcast showing the cache |
| Sanitizer.KeepAttrs | i2as/blocks/markup.py:84-93 | The attributes kept are those allowed on the tag that have a value, a safe URL and digits where asked, in order |
| Sanitizer.Machine.HandleStartTag | i2as/blocks/markup.py:77-96 | Dropped-content tags only count; an allowed tag outside them is emitted with its kept attributes and opened unless void |
| Sanitizer.Machine.HandleEndTag | i2as/blocks/markup.py:98-109 | An open tag closes everything inside it and itself; any other end tag emits nothing |
| Sanitizer.Machine.PopThrough | i2as/blocks/markup.py:105-109 | Pops exactly down to the innermost open tag of that name, emitting a closing tag for each, innermost first |
| Sanitizer.Machine.CloseAll | i2as/blocks/markup.py:115-119 | Closes every tag still open, innermost first |
| Sanitizer.Sanitize | i2as/blocks/markup.py:122-133 | The loop over the events emits the tokens of the machine |
| Sanitizer.OutputIsWellNestedAndAllowed | i2as/blocks/markup.py:68-133 | For every event sequence the output is well nested and holds only allowed lower-case tags and kept attributes |
| Sanitizer.OutputAttributesAreHarmless | i2as/blocks/markup.py:77-96 | Every attribute of every emitted tag is a link on an `a` that, past its leading blanks, spells http or https in some mixture of cases followed by "://" and holds none of the six characters, a title on an `a`, or the digits of a table cell's span; no dropped-content tag is emitted |
| Sanitizer.HarmlessAttributesSurvive | i2as/blocks/markup.py:84-96 | Every such attribute of every allowed start tag outside dropped content is emitted with its value unchanged |
| Sanitizer.SafeUrlIff | i2as/blocks/markup.py:61-63 | The URL check accepts exactly those links |
| Sanitizer.OutputTextIsTheVisibleText | i2as/blocks/markup.py:111-113 | The output carries exactly the texts met outside dropped-content tags, in order |
| Sanitizer.TextSurvivesIffNoneDropped | i2as/blocks/markup.py:111-123 | All text survives exactly when none comes inside a dropped-content tag |
| Sanitizer.UnclosedTagSwallowsTheRest | i2as/blocks/markup.py:77-83 | A dropped-content tag that no dropped-content end tag follows, wherever it stands and whatever else follows, leaves the output the texts before it and no other |
| Sanitizer.SanitizingAgainChangesNothing | i2as/blocks/markup.py:68-133 | Sanitizing the output's own tokens returns them unchanged |
| SafeMarkup.EscapeIsOneByOne | i2as/blocks/markup.py:58-60 | Escaping replaces each character once: no replacement touches what an earlier one put in |
| SafeMarkup.UnescapeUndoesEscape | i2as/blocks/markup.py:58-60 | Reading the entities back gives the text |
| SafeMarkup.OutputReadsAsItsTokens | i2as/blocks/markup.py:93-119 | For every input a reader that takes tags apart, into names and quoted attribute values with their entities read back, sees exactly the emitted tags with exactly their kept attributes, and the texts between them: no text or value adds, ends or alters a tag or an attribute |
| SafeMarkup.OutputShowsTheVisibleText | i2as/blocks/markup.py:111-133 | The text read from the output is the input's visible text, character for character |
| ManifestChecker.Check | i2as/core/capability_manifest.py:552-605 | Appends exactly the errors of the value, each at its path, and removes none; ends exactly when no chain of references it follows comes back on itself |
| ManifestChecker.CheckObject | i2as/core/capability_manifest.py:608-637 | The errors of an object: each required key it lacks, each key it may not have, and the errors of its members |
| ManifestChecker.NothingReportedIffSatisfied | i2as/core/capability_manifest.py:552-637 | A value has no error exactly when it satisfies the declarative meaning of the keywords |
| ManifestChecker.ObjectIsAcceptedIff | i2as/core/capability_manifest.py:608-637 | An object satisfies a schema exactly when every required key is the key of a member, and each member satisfies its property's schema or, if it has none, is allowed as an extra one |
| ManifestChecker.MissingKeyIsReportedIff | i2as/core/capability_manifest.py:624-627 | A required key is reported missing from an object exactly when no member of that object has it |
| ManifestChecker.TypesMean | i2as/core/capability_manifest.py:541-549 | Which values have each of the seven type names; an unknown name has none |
| ManifestChecker.ListedValuesMean | i2as/core/capability_manifest.py:595-597 | Which values equal a listed scalar, as Python compares them |
| ManifestChecker.ReferencesMean | i2as/core/capability_manifest.py:640-654 | A reference under the prefix stands for the definition of that name, if there is one; any other reference is met by nothing |
| ManifestChecker.Validate | i2as/core/capability_manifest.py:513-535 | The empty list exactly for a document that satisfies the schema |
| ManifestChecker.CheckingAlwaysEndsIffNoReferenceLoops | i2as/core/capability_manifest.py:576-583 | Checking ends for every document and schema exactly when no definition refers back to itself |
| ManifestChecker.DirectDefinitionsAlwaysEnd | i2as/core/capability_manifest.py:640-654 | It always ends when no definition is itself a reference, as in the manifest's own schema |
| ManifestChecker.AcceptedIffValidAndClean | i2as/core/capability_manifest.py:552-637 | For schemas of the manifest's form, definitions included, a document is accepted exactly when it is valid by draft 2020-12 and nowhere puts a float without a fraction where "integer" is asked for without "number" |
| ManifestChecker.TypesAgreeIff | i2as/core/capability_manifest.py:541-549 | The type keyword agrees with the standard on every value exactly when "integer" never stands without "number" |
| ManifestChecker.KeywordsBesideAReferenceAreIgnored | i2as/core/capability_manifest.py:576-583 | Schemas with the same reference report the same errors, end alike and accept the same values whatever stands beside it; the standard accepts of those exactly the ones that satisfy the keywords beside it, where both read the reference alone alike |
| ManifestChecker.ListsAgreeIff | i2as/core/capability_manifest.py:595-597 | Listed scalars are read as the standard reads them, on every value, exactly when 1 and `true` are listed together or not at all, and 0 and `false` too |
| Messages.RenderedAsItselfIffJson | i2as/core/events.py:95-126 | A value is rendered as itself exactly when it is JSON |
| Messages.RenderingAgainChangesNothing | i2as/core/events.py:95-126 | Rendering is idempotent |
| Messages.RenderingMeans | i2as/core/events.py:95-126 | A value is refused exactly when something in it is none of the types carried; otherwise its rendering has the same scalars at the same keys and positions, every tuple a list |
| Messages.ScalarFieldsMean | i2as/core/events.py:682-714 | Which values construction accepts in a scalar field, and that it keeps them |
| Messages.NameFieldsMean | i2as/core/events.py:1161-1184 | Name lists are accepted exactly when all are strings, and kept as a tuple of the same names, sorted where the class sorts them |
| Messages.MappingFieldsMean | i2as/core/events.py:129-146 | A checked mapping is accepted exactly when it is missing or nothing in it is of another type, and kept as its rendering |
| Messages.SurvivesIff | i2as/core/events.py:161-195 | A well-typed message of any sane class comes back from its own JSON unchanged exactly when every field construction leaves unchecked, in it and in the messages inside it, holds JSON |
| Contract.ContractIsSane | i2as/core/events.py:212-1438 | Each of the seventeen classes declares every field once, with a default that coercion keeps and JSON carries, so the statements about sane classes hold of all of them |
| Contract.DeclarationsAlwaysSurvive | i2as/core/events.py:161-195 | Actors, commands and the declarations of instruments and procedures always survive |
| Messages.BuiltIsWellTyped | i2as/core/events.py:179-195 | Whatever construction accepts is well typed: coercing its fields again changes nothing |
| Messages.WhatIsReadSurvives | i2as/core/events.py:179-195 | A message read off the wire survives being written and read again |
| Contract.EventsComeBackIff | i2as/core/events.py:1473-1494 | The discriminator recovers the right type for all eight event kinds, and the event comes back exactly when its unchecked fields hold JSON |
| Contract.ATupleComesBackAsAList | i2as/core/events.py:161-176 | A tuple in an unchecked field comes back as a list |
| ConfigCatalog.TriesAreBounded | i2as/core/config_catalog.py:213-217 | The search for a free id tries at most one id more than there are versions |
| ConfigCatalog.CandidatesAreNumbered | i2as/core/config_catalog.py:211-217 | The first id tried is the one asked for, and the k-th one for k > 1 is that id, a dash and the decimal digits of k, which read back as k |
| ConfigCatalog.Catalog.SaveVersion | i2as/core/config_catalog.py:176-230 | Writes the active files and adds one version under a free id |
| ConfigCatalog.Catalog.ForkShipped | i2as/core/config_catalog.py:116-149 | Refused without its source or with its target in place, changing nothing; otherwise copies the files and seeds the history |
| ConfigCatalog.Catalog.RestoreVersion | i2as/core/config_catalog.py:268-284 | Refused for an unknown version; otherwise copies its files, leaving an active monitor file it lacks |
| ConfigCatalog.SaveAddsWhatIsActive | i2as/core/config_catalog.py:203-230 | The new version holds the files given, now active, with the label and time given, under the first free id counted from the one asked for; no other version and no other config changes |
| ConfigCatalog.SnapshotsNeverChange | i2as/core/config_catalog.py:116-284 | No sequence of forks, saves and restores changes or loses a version |
| ConfigCatalog.SavedFilesComeBackIff | i2as/core/config_catalog.py:268-284 | A version saved at any time, restored at any later time, makes the active files what they were after that save exactly when it holds a monitor file or none is active |
| ConfigCatalog.ForkStartsTheHistory | i2as/core/config_catalog.py:131-149 | Under the name given, or the shipped one when none is, a fork makes the shipped files active and its only version, and changes no other config |
| ConfigCatalog.NewestIsActiveIff | i2as/core/config_catalog.py:186-189 | From a state whose newest version is active, through every sequence of operations without a further save of that config, it is active exactly when the version restored last has its devices and the last restored monitor file is its own |
| ConfigCatalog.RestoreCanMixVersions | i2as/core/config_catalog.py:281-284 | A restore can leave active files that match no version |
| Conditions.Decide | i2as/core/conditions.py:158-213 | The computed verdict is the declared one: each instrument held by its smallest-key hold |
| Conditions.WhatTheVerdictSays | i2as/core/conditions.py:179-213 | Held are the union of the hold scopes, each under its smallest key; emergencies are exactly the criticals in key order; the run fails on the alphabetically first watched instrument held, only while a run is active |
| Conditions.HeldByTheFirstKey | i2as/core/conditions.py:179-203 | An instrument is held exactly when some hold names it, by the one whose key is first in the dictionary order of strings and, of equal keys, the one given first |
| Conditions.EmergenciesInOrder | i2as/core/conditions.py:179-194 | The emergencies are the criticals in the order of their keys, those of one key in the order given |
| Conditions.RunFailsOnTheFirstName | i2as/core/conditions.py:205-211 | The run fails exactly when it is active and a watched instrument is held, on the one whose name is first in the dictionary order, with what holds it |
| Conditions.OrderIsIgnoredIffNoTies | i2as/core/conditions.py:166-213 | The verdict is the same on every permutation exactly when no two different criticals share a key and no instrument's smallest hold key is shared by two different holds |
| Conditions.DistinctKeysIgnoreOrder | i2as/core/conditions.py:166-168 | With distinct keys the verdict ignores the order |
| Estimates.RampSeconds | i2as/core/estimates.py:158-211 | The time of the slowest instrument with a rate, and the assumptions appended in name order |
| Estimates.SlowestIsUnique | i2as/core/estimates.py:194-211 | The slowest ramp time is one number: what is said of it determines the ramp phase |
| Estimates.RampPhaseIsJustEnough | i2as/core/estimates.py:194-211 | At its rate in units per minute each rated instrument covers its distance within the ramp phase, and one of them needs all of it unless none moves |
| Estimates.RatesArePerMinute | i2as/core/estimates.py:210 | Ramping for the time estimated at a rate per minute covers the distance: seconds times rate is distance times 60 |
| Estimates.DistanceOneMore | i2as/core/estimates.py:196-200 | Each further setpoint adds its gap from the one before it, up or down |
| Estimates.CountRamp | i2as/core/estimates.py:195-210 | One instrument: counted, named as having no rate, or passed over when it does not move |
| Estimates.ReadStepCost | i2as/core/estimates.py:120-155 | The run's own cost, or none and the reason |
| Estimates.EstimateDuration | i2as/core/estimates.py:74-117 | The total of four phases, none negative: the setup, the settle wait before every point but the first, the measurement at every point, and the slowest ramp; without a cost from the procedure the first three are zero |
| Estimates.AssumptionsAreExplicit | i2as/core/estimates.py:23-37 | Something is always assumed, and the two modelling assumptions exactly when the setpoints could be read; a lack of rate is assumed for exactly the instruments that travel and have no positive rate, each with its own distance |
| Estimates.NoInstrumentBeatsItsStraightLine | i2as/core/estimates.py:195-210 | The ramp phase is never below any counted instrument's straight-line time |
| Estimates.StraightIffNeverTurning | i2as/core/estimates.py:196-200 | The distance counted is the straight one exactly when the setpoints never turn back |
| Estimates.FewerSetpointsNeverTakeLonger | i2as/core/estimates.py:194-211 | Leaving out setpoints and raising rates never lengthens the ramp phase |

## Left out

- The GUI, Qt widgets and signals, argument parsers, logging and the `scripts/` relays: wiring. A Qt mailbox is FIFO, and an emit on the receiver's own thread is a direct call.
- HDF5 itself: a file is its named datasets; locking and reader modes, dataset attributes and `flush` are not modelled.
- Clocks, UUIDs and file-system details: times and fresh ids are parameters, a config directory is a map, hand-made directories and path separators in names do not occur.
- The parser behind the sanitizer: the model starts from its events. Lower-casing, stripping and digits are those of ASCII. Markdown rendering is left out.
- Floating-point rounding, infinities and NaN other than as "no value": numbers are exact reals. A value given as numeric text, which the writer converts, is refused in `RunFile` and `StoredValues`.
- The engine, station, procedures, drivers and session layer: only what the modelled code says of them. `take_next_spec` pops one spec; `build_spec` succeeds or fails.
- Shutting the instrument host down, and the loop-axis columns and `select_frame` of the reader.
- The wording of errors, and which of several errors one construction raises first.
- QueueProtocol: publishing is two steps of the client thread and a pull is a post and the end of its wait; each such step is atomic, as each is one read or write of shared data.
- FormGroups.Activate: the list of remaining blocks is a set of indices; only membership is used.
- FormCodec: a wire key holds the type documented for it or is missing; `str()` and `bool()` of values of other types are not modelled.
- Messages: dictionary keys and the elements of name lists are strings already; `str()` of other values is not modelled, so construction refuses them here. A `str` enum's member is its string.
- ManifestChecker: arrays are lists; Python tells a tuple from a list when it compares with a listed value.
- DataSchemas.Validate: the order of the problems, the sorting of names in them, and how many leaves of a column are reported.
- RunReader.RunHandle.ReadSlice: the `timestamp` column and the loop-axis columns, which the source slices too, are refused as unknown; of a timestamp only whether it is set is modelled.
- ConfigCatalog: `list_versions` and its order by id, which is the order of strings and not of counters.
- Estimates: a setpoint that is not a number.
