# SIOX: verified models of the monitoring core

SIOX observes parallel I/O. This project models its most intricate components and proves properties that hold
for every run, every input or every interleaving. Each component is a group of modules under `src/`; `dafny
verify dfyconfig.toml` checks all of them.

**Asynchronous activity queue** (`AsyncQueue*.dfy`). A ring of 256 slots between any number of producers and
one worker thread, with wrapping 32-bit indices, an overload mode and a start/stop handshake. It is a
transition system with one step for each read or write of shared memory. In every run it refines a FIFO queue
of capacity 255, no two threads touch one slot, no activity and no loss is forgotten, and a null from Pop
means that everything accepted before stop() has been delivered. stop() always can come to its end: the worker
alone delivers what is queued and exits, and leaves only what was accepted after its last look at the ring
(`AsyncQueueStopping.StopEndsTheWorker`); without stop() it never exits. The overload mode can get stuck: the
flag is raised in a step of its own, and if the worker has emptied the ring and done its check before that
step, only a producer that read the flag earlier can still bring in an activity. Without one the queue is
trapped. `OverloadCanEnd` says that an overload can end if and only if the queue is not trapped, `StepSprings`
and `TrappedIffSprung` say exactly which steps trap it, and `TrapIsReachable` gives a run. A class with the
operations as methods is tied to the transition system by runs in which one thread works alone.

**Statistics history** (`Statistic*.dfy`). Five cascaded rings of eleven slots for each reduce operator. The
specification is the aggregate of the raw samples over a window; the rings contain exactly these aggregates,
through any number of updates. For the truncating AVERAGE the accumulated error is bounded level by level, for
samples of either sign. Counters that wrap are converted to their growth, which is right if and only if a step
grows by less than the range. A reader that still uses the previous index never meets a slot that is being
written.

**Topology** (`Topology*.dfy`, `Variables.dfy`). The typed graph with its tables, child maps and parent
vectors, registered by any number of threads whose calls are split where they take or release locks, and
refused exactly if their objects did not exist when they were looked up; the path language, whose scanner is
the inverse of a printer; aliases, whose resolution terminates and never changes, so that a path means what
chains of aliases make of its pieces; and access by path. A path finds exactly what a chain of relations with
its names and types leads to, registering it fails if and only if an object of another type is in the way, and
afterwards it leads to the object in every later state. The forwarded topology is a client and a server that
exchange serialized messages. While its tables stay below 2^32 - 1 entries, it has the same results as the
calls on its backend, for attribute values of any type, if and only if no call looks up, by its id, a type
named "-1" or an attribute of the domain 2^32 - 1.

**Generated serialization** (`JBinary*.dfy`). An interpreter for the code that the JBinary generator emits,
over all schemas: length, serialize and deserialize fit together, truncated buffers are always noticed, and
whatever is read is a value of the type. The layout of the bytes is given on its own, and deserialize returns
a value if and only if the bytes stand for it (`ReadsIffStands`). On top, the frames of a connection: a byte
stream is taken apart into exactly the messages that were sent, and a message is read only where its frame is.

**Equations** (`Equation*.dfy`). The grammar as ordered choice with greedy repetition, the parse trees, and
the functions that walk them. No assert of a walker fires on any text. A text has a value if and only if it is
the text of an expression, with parentheses where they are needed and anywhere else, and the value is the
meaning of the expression (`EvaluateIffExpression`).

**Job processor** (`JobQueues.dfy`, `JobProcessor.dfy`, `JobProcessorCalls.dfy`). The bounded queue and the
single worker thread: a job is accepted if and only if the queue is below its bound, every job is in exactly
one place, jobs are processed in the order of submission, and without stopProcessing no wake-up is lost, so a
worker that is left alone completes all pending jobs. After stopProcessing it ends if and only if it neither
waits on an empty queue nor sleeps over jobs of which nobody has told it. The methods of the class do to its
fields what the transition system does.

**Reasoner** (`Reasoner.dfy`). Plugins collect observations while a periodic cycle drains and merges them: in
every interleaving nothing is lost or counted twice, and a cycle fires the triggers if and only if it, or the
cycle before it, queried a plugin with a new abnormal observation or had another reason (`FiredIffNews`).

Where the code falls short of its own documentation, the model follows the code: the overload mode above; an
activity that is accepted while the worker is about to exit stays in the ring until the next start;
`list::remove` takes away all copies of a job while the counter goes down by one
(`ProcessorQueueDiscardWrapper.RemoveJob` says exactly when the counter stays right); `stopProcessing` does
not end a worker that waits on an empty queue, and a job submitted after it does not wake the worker
(`JobProcessor.StopEndsTheWorker` and `StepLosesWakeUp` say exactly when, `StopMayLeaveTheWorker` and
`StopMayLoseAJob` give the runs); the forwarded topology confuses some entries with null handles
(`ForwardsUnlessStumbling`, with `NamedMinusOneIsLost`, `LastDomainIsLost` and `LastTypeIsLost`); the function
`ln10` can never be parsed.

Assumptions about what is not in the repository: atomics are sequentially consistent; `overloaded` of the
queue is a plain bool that Push reads without the lock, and this data race is modelled as a sequentially
consistent access, like the status that the worker of the job processor reads without the lock; a condition
variable wakes its waiter when it is notified, and may wake it at other times, which is a step of its own that
a worker left alone is not granted; integers are copied in little-endian order; floating-point numbers are
those of IEEE 754, and `==` compares them as it says; signed overflow of a statistic wraps; `real_p` of
Boost.Spirit matches an optional sign, digits with an optional fraction, and an optional exponent;
`lexical_cast` reads a literal with a sign as the number itself or its negative.

## Model

| member | source | states |
|---|---|---|
| `AsyncQueueInvariants.MaskedDifferenceIsCount` | src/monitoring/activity_multiplexer/ActivityMultiplexerAsync.cpp:52 | While at most 255 elements are queued, the masked difference of the wrapping indices, loaded at any one moment, is the number of elements |
| `AsyncQueueInvariants.StepInv` | src/monitoring/activity_multiplexer/ActivityMultiplexerAsync.cpp:180-265 | One read or write by any thread keeps the invariant that ties indices, slots, the mutex, the knowledge of each thread and the loss counters together |
| `AsyncQueueInvariants.Reachable` | src/monitoring/activity_multiplexer/ActivityMultiplexerAsync.cpp:180-265 | The invariant holds after every run of any number of producers, the worker and the controller |
| `AsyncQueueTheorems.StepRefines` | src/monitoring/activity_multiplexer/ActivityMultiplexerAsync.cpp:180-234 | A step changes the contents exactly as the accept or deliver event that it is, and leaves room for at most 255 elements |
| `AsyncQueueTheorems.RefinesFifo` | src/monitoring/activity_multiplexer/ActivityMultiplexerAsync.cpp:180-234 | The accepts and delivers of every run are a history of a FIFO queue of capacity 255, and the ring holds what that queue holds |
| `AsyncQueueTheorems.SlotsAreExclusive` | src/monitoring/activity_multiplexer/ActivityMultiplexerAsync.cpp:75-76 | The slot that a producer writes is never the one that the worker reads or clears, and at most one producer writes |
| `AsyncQueueTheorems.SizesAreRight` | src/monitoring/activity_multiplexer/ActivityMultiplexerAsync.cpp:186-188 | The masked difference is the number of queued elements, at most 255; a size that Push computed stays an upper bound although its read index may be stale, and Push finds the ring full if and only if it was full when it loaded that index |
| `AsyncQueueTheorems.PopAssertionHolds` | src/monitoring/activity_multiplexer/ActivityMultiplexerAsync.cpp:226 | The assertion in Pop never fails |
| `AsyncQueueTheorems.NullMeansDrained` | src/monitoring/activity_multiplexer/ActivityMultiplexerAsync.cpp:204-224 | When Pop returns null, everything accepted before stop() set terminate has been delivered, in order |
| `AsyncQueueTheorems.LossesAreConserved` | src/monitoring/activity_multiplexer/ActivityMultiplexerAsync.cpp:180-196 | At every moment the attempts are delivered, queued, counted as lost, reported, or still in flight, each exactly once |
| `AsyncQueueStopping.StopEndsTheWorker` | src/monitoring/activity_multiplexer/ActivityMultiplexerAsync.cpp:204-251 | Once terminate is set and no producer holds the mutex, some number of steps of the worker alone lets it set terminated and exit; by then it has delivered everything accepted, unless it had already looked for the last time and found the ring empty, in which case what came after that look stays queued |
| `AsyncQueueStopping.StopFinishes` | src/monitoring/activity_multiplexer/ActivityMultiplexerAsync.cpp:246-251 | Two more steps of the controller then complete stop() |
| `AsyncQueueStopping.StopCanFinish` | src/monitoring/activity_multiplexer/ActivityMultiplexerAsync.cpp:246-251 | From every state in which stop() waits, also while a producer is in its critical section, some schedule completes it |
| `AsyncQueueStopping.ExitsOnlyWhenStopping` | src/monitoring/activity_multiplexer/ActivityMultiplexerAsync.cpp:211-234 | In every run the worker sets terminated and exits only after terminate was set, while stop() is under way |
| `AsyncQueueStopping.StartRuns` | src/monitoring/activity_multiplexer/ActivityMultiplexerAsync.cpp:157-161 | Three steps of the controller start a stopped queue again, with the worker at the beginning of Pop and what the ring still holds |
| `AsyncQueueStopping.WorkDelivers` | src/monitoring/activity_multiplexer/ActivityMultiplexerAsync.cpp:204-265 | While the queue is running, a worker that is left alone delivers everything accepted, in order |
| `AsyncQueueOverload.RecoverableUnlessTooLate` | src/monitoring/activity_multiplexer/ActivityMultiplexerAsync.cpp:192-195 | A step takes away the chance that the worker by itself ends the overload if and only if it raises the flag on a ring that the worker has emptied and checked; a producer that read the flag before may yet restore it |
| `AsyncQueueOverload.TimelyRunsRecover` | src/monitoring/activity_multiplexer/ActivityMultiplexerAsync.cpp:237-243 | In a run that never does so, a Pop or a check that can end an overload is always still to come |
| `AsyncQueueOverload.OverloadEnds` | src/monitoring/activity_multiplexer/ActivityMultiplexerAsync.cpp:237-243 | While the queue is running, no producer holds the mutex and a Pop or a check is still to come, the worker ends the overload by working alone |
| `AsyncQueueOverload.TrapIsForever` | src/monitoring/activity_multiplexer/ActivityMultiplexerAsync.cpp:180-196 | Once the queue is overloaded, its ring empty, the worker past its check and no producer past the test of the flag, nothing is accepted or delivered any more whatever the threads do, and every attempt is a loss |
| `AsyncQueueTrap.TrapIsReachable` | src/monitoring/activity_multiplexer/ActivityMultiplexerAsync.cpp:186-195 | One producer and one worker can trap the queue while it is running |
| `AsyncQueueRecovery.StepSprings` | src/monitoring/activity_multiplexer/ActivityMultiplexerAsync.cpp:180-201 | A step traps the queue if and only if it raises the flag on a ring that the worker has emptied and checked, while no other producer has passed the test of the flag without having stored its activity yet |
| `AsyncQueueRecovery.TrappedIffSprung` | src/monitoring/activity_multiplexer/ActivityMultiplexerAsync.cpp:180-201 | In every run the queue is trapped at the end if and only if some step of the run did that |
| `AsyncQueueRecovery.OverloadCanEnd` | src/monitoring/activity_multiplexer/ActivityMultiplexerAsync.cpp:237-243 | From a reachable state some schedule of the threads ends the overload if and only if the queue is not trapped, be it running, stopping or stopped |
| `AsyncQueueSequential.SizeBounds` | src/monitoring/activity_multiplexer/ActivityMultiplexerAsync.cpp:72-76 | The masked difference is below 256 for any indices, and the queue read off the ring has that length |
| `AsyncQueueSequential.PushEnqueues` | src/monitoring/activity_multiplexer/ActivityMultiplexerAsync.cpp:180-201 | An undisturbed Push appends the activity, or counts a loss when 255 elements are queued or the queue is overloaded |
| `AsyncQueueSequential.PopDequeues` | src/monitoring/activity_multiplexer/ActivityMultiplexerAsync.cpp:211-234 | An undisturbed Pop takes the first element and leaves the others in their order |
| `AsyncQueueSequential.ActivityMultiplexerQueue.Push` | src/monitoring/activity_multiplexer/ActivityMultiplexerAsync.cpp:180-201 | The method leaves exactly the specified ring, indices, flag and counter |
| `AsyncQueueSequential.ActivityMultiplexerQueue.Pop` | src/monitoring/activity_multiplexer/ActivityMultiplexerAsync.cpp:211-234 | On a queue that is not empty, or is to end, the method returns the head and leaves the specified state, or null |
| `AsyncQueueSequential.ActivityMultiplexerQueue.CheckOverflowMode` | src/monitoring/activity_multiplexer/ActivityMultiplexerAsync.cpp:237-243 | Losses are reported, and the overload ended, only on an overloaded and empty queue |
| `AsyncQueueSequential.SoloPush` | src/monitoring/activity_multiplexer/ActivityMultiplexerAsync.cpp:180-201 | A producer that runs alone takes the transition system to the state that the sequential Push specifies |
| `AsyncQueueSequential.SoloPop` | src/monitoring/activity_multiplexer/ActivityMultiplexerAsync.cpp:211-265 | A worker that runs alone delivers the first element, reports the losses and ends the overload if the ring is empty then, and returns to the start of Pop |
| `StatisticSpec.CascadeIsAggregate` | src/monitoring/statistics/collector/Statistic.cpp:47-85 | Aggregating the aggregates of the parts of a window, level below level, gives the minimum, the maximum or the (wrapped) sum of the whole window |
| `StatisticSpec.AverageLoses` | src/monitoring/statistics/collector/Statistic.cpp:68-74 | The cascaded truncating average loses at most 9, 180, 1580 and 21200 from the sum of its window |
| `StatisticAverages.TruncDivTruncates` | src/include/core/datatypes/VariableDatatype.hpp:329-345 | Division rounds towards zero: the remainder is smaller than the divisor and has the sign of the dividend |
| `StatisticAverages.AverageIsNear` | src/monitoring/statistics/collector/Statistic.cpp:68-74 | For signed samples whose magnitudes together fit the type, the cascaded average is off by at most 9, 180, 1580 and 21200 over its window in either direction |
| `StatisticSpec.GaugeIsGrowth` | src/monitoring/statistics/collector/Statistic.cpp:134-144 | The gauge value of a cyclic counter is its growth if and only if it grew by less than its range, also when the range is 2^64 |
| `StatisticSpec.CounterWindows` | src/monitoring/statistics/collector/Statistic.cpp:96-144 | The SUM of the gauge values of a window is the growth of the counter over this window |
| `StatisticRings.InferIsRecent` | src/monitoring/statistics/collector/Statistic.cpp:47-85 | inferValue over the slots below is the aggregate of the most recent raw samples of a period |
| `StatisticRings.UpdateKeepsRings` | src/monitoring/statistics/collector/Statistic.cpp:96-123 | An update keeps every live entry of every ring equal to the aggregate of its window, and fills exactly the levels whose increment divides the index |
| `StatisticRings.CascadeWrites` | src/monitoring/statistics/collector/Statistic.cpp:110-119 | The cascade changes no slot but the one for the new index in each level that it completes |
| `StatisticRings.ReaderAndUpdateAreDisjoint` | src/monitoring/statistics/collector/Statistic.cpp:36-45 | The ten slots that a reader with the previous index visits are none of those that an update writes, at any level |
| `StatisticRings.ReaderIsUndisturbed` | src/monitoring/statistics/collector/Statistic.cpp:36-45 | After any number of the writes of an update in flight the reader finds the same values as before |
| `StatisticRings.RunsKeepRings` | src/monitoring/statistics/collector/Statistic.cpp:96-123 | The rings hold the aggregates after any number of updates |
| `StatisticRings.LiveEntriesAreAggregates` | src/monitoring/statistics/collector/Statistic.cpp:96-123 | Entry q of each level is the aggregate of samples (q-1)*inc+1 to q*inc |
| `Statistics.Statistic.RequestReduction` | src/monitoring/statistics/collector/Statistic.cpp:25-28 | Counts the request; with the first one the history of the operator begins at the next sample |
| `Statistics.Statistic.CancelReductionRequest` | src/monitoring/statistics/collector/Statistic.cpp:30-34 | Takes back one request; the counts of the other operators stay |
| `Statistics.Statistic.InferValue` | src/monitoring/statistics/collector/Statistic.cpp:47-85 | The loops compute the specified aggregate of the level below |
| `Statistics.Statistic.UpdateOperator` | src/monitoring/statistics/collector/Statistic.cpp:108-119 | Writes the sample and cascades: the rings afterwards are the specified ones |
| `Statistics.Statistic.Update` | src/monitoring/statistics/collector/Statistic.cpp:96-123 | Records the current value as the next sample and its time; the rings of all requested operators then hold the aggregates of the longer sequence |
| `Statistics.Statistic.GetHistoricValues` | src/monitoring/statistics/collector/Statistic.cpp:36-45 | The ten most recent completed entries in time order, each the aggregate of its window; values and times may each be left out |
| `Statistics.Statistic.GetRollingValue` | src/monitoring/statistics/collector/Statistic.cpp:87-89 | The entry that was completed last |
| `Statistics.Statistic.GetReducedValue` | src/monitoring/statistics/collector/Statistic.cpp:91-94 | The aggregate of the most recent period, whether or not it is completed |
| `Statistics.IncrementalStatistic.ConvertToGauge` | src/monitoring/statistics/collector/Statistic.cpp:134-141 | The gauge of the new reading as the specification has it, in 64-bit arithmetic |
| `Statistics.IncrementalStatistic.Update` | src/monitoring/statistics/collector/Statistic.cpp:134-144 | Records the growth of the counter modulo its range as a sample, which is the growth if and only if it is less than the range |
| `Statistics.IncrementalStatistic.SumsAreGrowth` | src/monitoring/statistics/collector/Statistic.cpp:134-144 | A live SUM entry is the growth of the counter that the updates saw over its window |
| `TopologyStore.InsertObjectKeeps` | src/monitoring/topology/RamTopology.cpp:152-190 | The section that holds the exclusive locks keeps tables, child maps and parent vectors consistent, and changes nothing that is registered |
| `TopologyStore.PutChildKeeps` | src/monitoring/topology/RamTopology.cpp:235-241 | Putting a relation into its child map makes it the only one that its parent vector still lacks |
| `TopologyStore.PushParentKeeps` | src/monitoring/topology/RamTopology.cpp:242-248 | Appending it to the parent vector restores the mirror |
| `TopologyThreads.StepInv` | src/monitoring/topology/RamTopology.cpp:92-112 | A step of any thread keeps the invariant, and nothing registered changes |
| `TopologyThreads.Reachable` | src/monitoring/topology/RamTopology.cpp:92-258 | The invariant holds after every interleaving of any number of registering threads: dense inverse tables, one relation for each parent, type and name, answers that are right, and refusals exactly of the calls whose objects did not exist |
| `TopologyThreads.RunGrows` | src/monitoring/topology/RamTopology.cpp:92-381 | Whatever the threads do, nothing that was registered changes or disappears |
| `TopologyThreads.MapsMirrorVectors` | src/monitoring/topology/RamTopology.cpp:242-250 | While no thread holds a child map for writing, a relation is in the child map of its parent if and only if it is exactly once in the parent vector of its child, and in no other |
| `TopologyThreads.AnswersStayRight` | src/monitoring/topology/RamTopology.cpp:134-381 | An answer given to a call is still right after any later steps; after a setAttribute that succeeded the attribute keeps having a value |
| `TopologyThreads.UnknownIffMissing` | src/monitoring/topology/RamTopology.cpp:134-381 | In every interleaving a call is refused as unknown if and only if an object that it names did not exist, or was the root as a child or owner, at the moment when the call looked it up |
| `TopologyThreads.SuccessIsSet` | src/monitoring/topology/RamTopology.cpp:354-381 | At the moment when setAttribute reports success the value that is found is the one that was set, or an equal one |
| `TopologyThreads.SameEntrySameId` | src/monitoring/topology/RamTopology.cpp:92-206 | Threads that register the same type, object or attribute, at whatever time, get the same id |
| `TopologyThreads.OtherEntryOtherId` | src/monitoring/topology/RamTopology.cpp:92-112 | Two different types, or attributes, never get the same id |
| `TopologyThreads.RootReaches` | src/monitoring/topology/RamTopology.cpp:165-183 | The first parents of the objects, which have smaller ids, lead from the root to every object |
| `TopologyThreads.EveryObjectIsReachable` | src/monitoring/topology/RamTopology.cpp:134-206 | In every reachable state every object can be found from the root through the child maps |
| `TopologyThreads.NoDeadlock` | src/monitoring/topology/RamTopology.cpp:134-258 | Some thread can always go on, although registerObject waits for a child map while it holds objectsLock |
| `TopologyThreads.WaitsAreOrdered` | src/monitoring/topology/RamTopology.cpp:163-164 | Whoever waits for a lock waits for a thread that is further on in the order objectsLock, child map, parent vector |
| `TopologyThreads.SoloRun` | src/monitoring/topology/RamTopology.cpp:92-258 | A thread that runs alone gives the answer, and leaves the store, that a call on its own has |
| `TopologyPaths.SplitJoin` | src/monitoring/topology/Topology.cpp:50-52 | Splitting at separators undoes joining pieces without separators |
| `TopologyPaths.JoinSplit` | src/monitoring/topology/Topology.cpp:50-52 | Joining undoes splitting, and no piece has a separator |
| `TopologyPaths.PiecesAreSplit` | src/monitoring/topology/Topology.cpp:49-52 | The loop visits the pieces between the slashes, except an empty one behind a slash at the end |
| `TopologyPaths.ParseInvertsPrint` | src/monitoring/topology/Topology.cpp:76-105 | A text is accepted as a component if and only if it is the text of a well-formed one, which is then returned |
| `TopologyAliases.ParsePathInvertsPrintPath` | src/monitoring/topology/Topology.cpp:41-60 | A path without aliases and without a slash at its end is accepted if and only if it is the text of a non-empty list of components, which is then returned |
| `TopologyAliases.CountIsFilled` | src/monitoring/topology/Topology.cpp:43-58 | The returned count is the number of descriptors that were filled if and only if the path does not end in a slash; else it is one more |
| `TopologyAliases.FollowOne` | src/monitoring/topology/Topology.cpp:66-72 | Each turn of the resolution loop gets nearer to its end and keeps the result |
| `TopologyAliases.AliasesAreAcyclic` | src/include/monitoring/topology/Topology.hpp:31-37 | The number of steps to the end is a rank above that of the value; values contain no slash |
| `TopologyAliases.StoreKeeps` | src/monitoring/topology/Topology.cpp:170-180 | An alias that was checked under an earlier lock may be stored later: it resolves, and what resolved before still resolves to the same |
| `TopologyAliases.AliasesAreSound` | src/monitoring/topology/Topology.cpp:160-183 | In every run of interleaved setAlias calls aliases are acyclic, lead to valid components, and never mean anything else later |
| `TopologyAliases.WinnersAgree` | src/include/monitoring/topology/Topology.hpp:32 | Two calls for one name both succeed only with the same value |
| `TopologyAliases.PathsKeepTheirMeaning` | src/monitoring/topology/Topology.cpp:62-74 | A path that could be parsed is parsed to the same components whatever aliases are added |
| `TopologyAliasMeanings.PathMeans` | src/monitoring/topology/Topology.cpp:41-106 | A path is parsed to a list of components if and only if it consists of texts with slashes between them, and perhaps one behind, from each of which a chain of aliases leads to the text of its component |
| `TopologyAliasMeanings.CheckedAnswer` | src/monitoring/topology/Topology.cpp:170-183 | A call that passed its check succeeds if and only if the alias has its value afterwards, whatever other calls do meanwhile |
| `TopologyAliasMeanings.SetAliasDecides` | src/include/monitoring/topology/Topology.hpp:31-37 | A call alone succeeds if and only if the name is an at sign and more without a slash, the value leads to a component and the alias has no other value; then the name means what the value means |
| `TopologyByPath.CallIsSound` | src/monitoring/topology/RamTopology.cpp:92-381 | A call on its own keeps the store consistent, only adds to it and answers right; it is refused as unknown if and only if its objects do not exist |
| `TopologyByPath.CallRegisterObject` | src/monitoring/topology/RamTopology.cpp:134-206 | Unknown parent, known child with the same type, known child with another type, or a new object with the next id |
| `TopologyByPath.CallRegisterRelation` | src/monitoring/topology/RamTopology.cpp:218-258 | Unknown objects or the root as child, a relation that is there, one that conflicts, or a new one in both places |
| `TopologyByPath.CallSetAttribute` | src/monitoring/topology/RamTopology.cpp:354-381 | An unknown object or the root, a value equal to the stored one, which is not written, or a new value |
| `TopologyByPath.SetAttributeStores` | src/monitoring/topology/RamTopology.cpp:367-375 | The value found afterwards is the one that was set, except that a zero stays where the other zero is set; no other value changes |
| `TopologyByPath.RegisteredIsFound` | src/monitoring/topology/Topology.cpp:108-158 | What was registered component by component is found by the same components with all types |
| `TopologyByPath.RegisterAgain` | src/monitoring/topology/Topology.cpp:108-130 | Registering creates nothing and returns an object if and only if looking up with all types finds it |
| `TopologyByPath.RegisteredPathIsFound` | src/monitoring/topology/Topology.cpp:108-158 | A registered path, also one that ends in a slash, is found at once and in every later store, under every extension of the aliases; registering it again returns the same object and creates nothing |
| `TopologyByPath.PathRegisteredAmidOthers` | src/monitoring/topology/Topology.cpp:108-158 | If the calls for the components of a path returned objects, whatever other threads did between them, the path leads to the last of these objects |
| `TopologyLookUps.FoundIffChain` | src/monitoring/topology/Topology.cpp:132-158 | A lookup finds an object if and only if a chain of relations leads to it whose types and names are those of the components, each reaching an object of the type that is named, or of any type where none is |
| `TopologyLookUps.PathFindsIffChain` | src/include/monitoring/topology/Topology.hpp:18-29 | The same for a path |
| `TopologyLookUps.RegisteredHaveTypes` | src/include/monitoring/topology/Topology.hpp:18-29 | The objects on a registered path have the types named on it, or where none is named the type of the same name as their relation |
| `TopologyLookUps.RegisterFailsIffBlocked` | src/monitoring/topology/Topology.cpp:108-130 | Registering by path fails if and only if the parent does not exist or an object of another type is in the way |
| `Topologies.SplitNext` | src/monitoring/topology/Topology.cpp:45 | Passing a separator takes one piece away, passing another character none |
| `Topologies.ParentsMirrorChildren` | src/monitoring/topology/RamTopology.cpp:277-309 | A relation is listed by enumerateParents exactly as often as by enumerateChildren, for any relation type |
| `Topologies.Topology.constructor` | src/monitoring/topology/RamTopology.cpp:75-83 | The empty topology with its root |
| `Topologies.Topology.RegisterType` | src/monitoring/topology/RamTopology.cpp:92-112 | Store and id are those of a call on its own |
| `Topologies.Topology.RegisterObject` | src/monitoring/topology/RamTopology.cpp:134-206 | Store and answer are those of a call on its own |
| `Topologies.Topology.RegisterRelation` | src/monitoring/topology/RamTopology.cpp:218-258 | Store and answer are those of a call on its own |
| `Topologies.Topology.RegisterAttribute` | src/monitoring/topology/RamTopology.cpp:311-332 | Store and answer are those of a call on its own |
| `Topologies.Topology.SetAttribute` | src/monitoring/topology/RamTopology.cpp:354-381 | Store and answer are those of a call on its own |
| `Topologies.Topology.LookUpRelation` | src/monitoring/topology/RamTopology.cpp:261-274 | The relation with this parent and key, if there is one |
| `Topologies.Topology.EnumerateParents` | src/monitoring/topology/RamTopology.cpp:294-309 | The relations of the parent vector with the type, from the last to the first |
| `Topologies.Topology.EnumerateChildren` | src/monitoring/topology/RamTopology.cpp:277-291 | Each relation of the child map with the type exactly once |
| `Topologies.Topology.ParsePathComponent` | src/monitoring/topology/Topology.cpp:62-106 | Loops through aliases, counts colons and cuts at them: the component that the grammar says |
| `Topologies.Topology.ParsePathString` | src/monitoring/topology/Topology.cpp:41-60 | Counts slashes and parses the pieces: the components that the grammar says, and the count |
| `Topologies.Topology.RegisterObjectByPath` | src/monitoring/topology/Topology.cpp:108-130 | Store and object are the specified ones, for every path |
| `Topologies.Topology.LookUpObjectByPath` | src/monitoring/topology/Topology.cpp:132-158 | The object that the specification finds, for every path |
| `Topologies.Topology.SetAlias` | src/monitoring/topology/Topology.cpp:160-183 | Succeeds if and only if the name is proper, the value leads to a component and the name is free or set to this value; only then the alias is stored |
| `JBinaryProofs.BytesRoundTrip` | src/include/core/container/container-binary-serializer.hpp:53-117 | An integer of any width and signedness is read back from the bytes that were copied |
| `JBinaryProofs.LenIsSize` | devel/scripts/serialization-code-generator.py:223-268 | For every schema and value, serialize writes exactly serializeLen bytes |
| `JBinaryProofs.SerializeAllAppend` | devel/scripts/serialization-code-generator.py:333-347 | Serializing two lists of parts one after the other is serializing them together, so parents and members may be measured in either order |
| `JBinaryProofs.RoundTrip` | devel/scripts/serialization-code-generator.py:270-310 | Wherever a buffer holds a serialized value, deserialize returns it and stops right behind it, without failing a bounds check |
| `JBinaryProofs.RoundTripAnywhere` | devel/scripts/serialization-code-generator.py:320-359 | The same in terms of any prefix, any suffix and the length function |
| `JBinaryProofs.LeafRoundTrip` | src/include/core/container/container-binary-serializer.hpp:22-241 | Primitives and strings are read back, C strings because they contain no NUL |
| `JBinaryProofs.HeadRoundTrip` | src/include/core/datatypes/VariableDatatypeJBinarySerialization.hpp:59-117 | Tags of variants and pointers and lengths of containers are read back |
| `JBinaryProofs.Truncated` | src/include/core/container/container-binary-serializer.hpp:17 | A buffer that ends inside a serialized value always fails a bounds check |
| `JBinaryProofs.DecodedHasType` | devel/scripts/serialization-code-generator.py:289-310 | Whatever bytes arrive, the result of deserialize is a value of the type |
| `JBinaryAccepts.ReadsIffStands` | devel/scripts/serialization-code-generator.py:289-359 | deserialize returns a value and a position if and only if the bytes up to there stand for the value, as the layout says: any byte but 0 is a true or a pointer that is not null, a C string ends at a NUL, and the rest is what serialize writes |
| `JBinaryAccepts.SerializedStands` | devel/scripts/serialization-code-generator.py:270-287 | serialize writes bytes that stand for the value |
| `JBinaryAccepts.OneReading` | devel/scripts/serialization-code-generator.py:289-310 | What stands for a value stands for no other, and is not the beginning of what stands for another one |
| `JBinaryFormat.LittleEndian` | src/include/core/container/container-binary-serializer.hpp:45-84 | Byte k of a number is its digit k to the base 256 |
| `JBinaryFormat.DigitsOfBytes` | src/include/core/container/container-binary-serializer.hpp:45-84 | The same for signed integers, where digits of a negative number come from division that rounds down: two's complement |
| `JBinaryFormat.VariantBytes` | src/include/core/datatypes/VariableDatatypeJBinarySerialization.hpp:59-117 | A variant is a byte with the number of its type in front of the value: 8 bytes for 64-bit types, 4 for 32-bit types, a length and the characters for strings, nothing for INVALID |
| `JBinaryFormat.TextBytes` | src/include/core/container/container-binary-serializer.hpp:218-230 | A string is its length in four bytes in front of its characters |
| `JBinaryFormat.CountedBytes` | devel/scripts/serialization-code-generator.py:270-287 | A container is the number of its elements in four bytes in front of the elements |
| `JBinaryFormat.ParentsBeforeMembers` | devel/scripts/serialization-code-generator.py:333-347 | An object is its parents in their order in front of its members in theirs |
| `JBinaryBuffers.Write` | devel/scripts/serialization-code-generator.py:270-287 | The recursive writer with its loops patches the buffer with exactly the serialized bytes, and touches nothing else |
| `JBinaryBuffers.Load` | devel/scripts/serialization-code-generator.py:289-310 | The recursive reader with its loops returns what the specification reads |
| `JBinaryBuffers.WriteBehind` | src/include/core/comm/ServiceClient.hpp:101-112 | Header and object fill the buffer exactly; neither assertion on the position fails |
| `JBinaryFraming.FrameIsRead` | src/core/comm/modules/gio/GIOinternal.hpp:151-230 | A frame is read back wherever the stream holds it |
| `JBinaryFraming.CutFrameIsNotRead` | src/core/comm/modules/gio/GIOinternal.hpp:183-197 | A frame of which the end is missing is not read |
| `JBinaryFormat.FrameLayout` | src/core/comm/modules/gio/GIOinternal.hpp:151-159 | A frame is the id, the key 14099 and the size of the whole frame in 4, 4 and 8 bytes in front of the payload |
| `JBinaryAccepts.MessageIffHeld` | src/core/comm/modules/gio/GIOinternal.hpp:170-230 | A message is read if and only if the stream holds its frame there; sizes below that of a header are never accepted |
| `JBinaryAccepts.FailureIffHeld` | src/core/comm/modules/gio/GIOinternal.hpp:200-215 | An error is read if and only if the stream holds a header with the error key there; the low byte of its size is the error |
| `JBinaryFraming.SentIsReceivedFrom` | src/core/comm/modules/gio/GIOinternal.hpp:170-230 | For any way to write and read one message: a stream of messages is taken apart into these messages |
| `JBinaryFraming.StreamIsReceived` | src/core/comm/modules/gio/GIOinternal.hpp:170-230 | A connection that breaks inside a frame delivers exactly the frames before it |
| `JBinaryFraming.Isend` | src/include/core/comm/ServiceClient.hpp:100-120 | The payload is exactly the frame that carries the object |
| `JBinaryFraming.ObjectArrives` | src/include/core/comm/ServiceClient.hpp:100-120 | The frame is read from the stream and its payload deserializes to the object that was sent |
| `EquationProofs.AlternativeIs` | src/core/math/MathematicalEquation.cpp:71-105 | An alternative that matched is an operator of the level with an operand behind it |
| `EquationProofs.ParsedEvaluates` | src/core/math/MathematicalEquation.cpp:157-486 | No assert in the tree walker fires on a tree that the grammar built, whatever the text was |
| `EquationProofs.EvaluatesIffMatched` | src/core/math/MathematicalEquation.cpp:130-144 | evaluate has a result if and only if the grammar matches the whole text |
| `EquationProofs.OperatorOf` | src/core/math/MathematicalEquation.cpp:288-440 | What a loop does with an operator is its meaning: comparisons give 1 or 0, the logical operators one of their operands |
| `EquationProofs.Chooses` | src/core/math/MathematicalEquation.cpp:80-87 | An operator in front of an operand is recognized although a shorter one is its prefix |
| `EquationProofs.SignedLiteralMeans` | src/core/math/MathematicalEquation.cpp:108-123 | A sign that goes into the number token has the effect of the unary operator |
| `EquationProofs.SpineMeans` | src/core/math/MathematicalEquation.cpp:90-101 | The operands of a level are combined from left to right |
| `EquationProofs.PrintedMeans` | src/core/math/MathematicalEquation.cpp:59-118 | The text of an expression, in front of anything that cannot continue it, is parsed as a whole and evaluates to its meaning |
| `EquationProofs.EvaluateIsDenotation` | src/core/math/MathematicalEquation.cpp:130-144 | For every expression, with operators, functions and parentheses, the text is consumed and evaluates to the meaning, in which each of the eight functions is an operation of its own and a call of any other name is 0 |
| `EquationProofs.FunctionOf` | src/core/math/MathematicalEquation.cpp:157-200 | The text of each of the eight functions that can be parsed calls this function and no other |
| `EquationTexts.ParsedReads` | src/core/math/MathematicalEquation.cpp:59-118 | Whatever a rule of the grammar matches is the text of an expression of its level, and evaluates to its meaning |
| `EquationTexts.EvaluateIffExpression` | src/core/math/MathematicalEquation.cpp:130-144 | For any text, evaluate gives a value if and only if the text is that of an expression, with parentheses where they are needed and anywhere else, whose meaning is this value |
| `EquationTexts.OneMeaning` | src/core/math/MathematicalEquation.cpp:59-118 | Two expressions with the same text have the same meaning |
| `EquationProofs.Ln10IsNotMatched` | src/core/math/MathematicalEquation.cpp:115-118 | A text that begins with ln10 is not a factor, so the branch for it is never taken |
| `EquationWalker.EvaluateNode` | src/core/math/MathematicalEquation.cpp:263-454 | The loops over operators and operands compute the specified value, or stop where an assert would fail |
| `EquationWalker.EvaluateText` | src/core/math/MathematicalEquation.cpp:130-144 | The value of a text that is matched as a whole |
| `JobQueues.WithoutCounts` | src/util/JobProcessors/DefaultProcessorQueues.cpp:22-26 | Removing a job takes away all its copies and no other job |
| `JobQueues.ProcessorQueueDiscardWrapper.MayEnqueue` | src/util/JobProcessors/DefaultProcessorQueues.cpp:43-45 | Tells whether the queue is below its bound |
| `JobQueues.ProcessorQueueDiscardWrapper.EnqueueJob` | src/util/JobProcessors/DefaultProcessorQueues.cpp:38-41 | Appends the job; the counter stays the length of the queue |
| `JobQueues.ProcessorQueueDiscardWrapper.PollNextJob` | src/util/JobProcessors/DefaultProcessorQueues.cpp:51-55 | Takes the first job; the assertion on the counter holds |
| `JobQueues.ProcessorQueueDiscardWrapper.RemoveJob` | src/util/JobProcessors/DefaultProcessorQueues.cpp:57-63 | Removes the job; the counter stays the length of the queue if and only if there was at most one copy |
| `JobProcessor.StepKeeps` | src/util/JobProcessors/SingleThreadedJobProcessor.cpp:10-82 | Each call and each step of the worker keeps counter, order and conservation |
| `JobProcessor.Reachable` | src/util/JobProcessors/SingleThreadedJobProcessor.cpp:10-82 | In every interleaving each job is in exactly one place, and processed, running and pending jobs in a row are the kept ones in the order of submission |
| `JobProcessor.ProcessedInOrder` | src/util/JobProcessors/SingleThreadedJobProcessor.cpp:63-82 | Jobs are processed in the order of submission, the dropped ones left out |
| `JobProcessor.StartJobAccepts` | src/util/JobProcessors/SingleThreadedJobProcessor.cpp:10-22 | In every run a submitted job becomes the last pending one if and only if fewer jobs than the bound are pending at that moment, and is aborted otherwise; nothing else is touched |
| `JobProcessor.CancelJobRemoves` | src/util/JobProcessors/SingleThreadedJobProcessor.cpp:24-27 | In every run a pending job that is cancelled is no longer pending and counts as cancelled, while the others keep their order; cancelling any other job changes nothing |
| `JobProcessor.ShutdownAborts` | src/util/JobProcessors/SingleThreadedJobProcessor.cpp:47-56 | In every run shutdown(true) aborts all pending jobs in their order, and shutdown(false) none |
| `JobProcessor.WorkTakesFirst` | src/util/JobProcessors/SingleThreadedJobProcessor.cpp:63-82 | In every run a step of the worker takes the first pending job, or completes the one it has, and changes nothing else |
| `JobProcessor.ReturnsWhenDone` | src/util/JobProcessors/SingleThreadedJobProcessor.cpp:69-73 | Unless stopProcessing is called, the worker returns only when every job is processed, aborted or cancelled |
| `JobProcessor.ShutdownDrains` | src/util/JobProcessors/SingleThreadedJobProcessor.cpp:46-61 | In a reachable state, after shutdown(false) the worker, left alone, is awake, processes all pending jobs in order and returns |
| `JobProcessor.WorkDrains` | src/util/JobProcessors/SingleThreadedJobProcessor.cpp:63-82 | While the processor is not stopping, a worker that does not oversleep, left alone, processes all pending jobs in order, and then sleeps, or returns if the processor is shutting down |
| `JobProcessor.JobsAreProcessed` | src/util/JobProcessors/SingleThreadedJobProcessor.cpp:10-82 | In every run without stopProcessing all pending jobs are processed in order as soon as the worker is left alone |
| `JobProcessor.StartDrains` | src/util/JobProcessors/SingleThreadedJobProcessor.cpp:30-38 | A processor whose worker has returned, or was never there, is operational again after startProcessing, and its worker, left alone, processes all pending jobs |
| `JobProcessor.ReachableWakes` | src/util/JobProcessors/SingleThreadedJobProcessor.cpp:10-82 | In every interleaving a worker sleeps without having been notified never during a shutdown, and over jobs only while the processor is stopping |
| `JobProcessor.NoLostWakeUp` | src/util/JobProcessors/SingleThreadedJobProcessor.cpp:14-19 | Without stopProcessing the worker never sleeps over a job without having been notified |
| `JobProcessor.StepLosesWakeUp` | src/util/JobProcessors/SingleThreadedJobProcessor.cpp:14-19 | A step makes the worker sleep over jobs if and only if it enqueues a job for a sleeper while the processor is stopping |
| `JobProcessor.StopEndsTheWorker` | src/util/JobProcessors/SingleThreadedJobProcessor.cpp:39-82 | While the processor is stopping, the worker, left alone, returns if and only if it neither sleeps without having been notified nor waits, or is about to wait, on an empty queue |
| `JobProcessor.StopCallEndsTheWorker` | src/util/JobProcessors/SingleThreadedJobProcessor.cpp:39-43 | A call of stopProcessing ends the worker, which is then left alone, if and only if it was not waiting, or about to wait, on an empty queue |
| `JobProcessor.StopLeavesTheRest` | src/util/JobProcessors/SingleThreadedJobProcessor.cpp:63-82 | While the processor is stopping, a lone worker processes at most the job at hand, and all other jobs stay in the queue in their order |
| `JobProcessor.SleeperStaysAsleep` | src/util/JobProcessors/SingleThreadedJobProcessor.cpp:10-37 | A worker that sleeps while the processor is stopping stays asleep and processes nothing, whatever jobs are submitted or cancelled and however often startProcessing is called, until another stopProcessing, a shutdown or a spurious wake-up |
| `JobProcessor.StopLeavesAWaitingWorker` | src/util/JobProcessors/SingleThreadedJobProcessor.cpp:39-82 | Without new jobs and without a shutdown a worker on an empty queue never returns, whatever else is called and however often it is woken |
| `JobProcessor.StopMayLeaveTheWorker` | src/util/JobProcessors/SingleThreadedJobProcessor.cpp:28-82 | A run in which stopProcessing finds the worker asleep on an empty queue, after which no step of the worker ends it |
| `JobProcessor.StopMayLoseAJob` | src/util/JobProcessors/SingleThreadedJobProcessor.cpp:10-43 | The same run with a job submitted behind it: the worker neither processes the job nor returns until it is woken |
| `JobProcessorCalls.SingleThreadedJobProcessor.IStartJob` | src/util/JobProcessors/SingleThreadedJobProcessor.cpp:10-22 | On the fields of the object and its queue, the method does what the transition system does |
| `JobProcessorCalls.SingleThreadedJobProcessor.ICancelJob` | src/util/JobProcessors/SingleThreadedJobProcessor.cpp:24-27 | The same for cancelling |
| `JobProcessorCalls.SingleThreadedJobProcessor.StartProcessing` | src/util/JobProcessors/SingleThreadedJobProcessor.cpp:30-38 | The same for starting the worker |
| `JobProcessorCalls.SingleThreadedJobProcessor.StopProcessing` | src/util/JobProcessors/SingleThreadedJobProcessor.cpp:41-45 | The same for stopping it |
| `JobProcessorCalls.SingleThreadedJobProcessor.AbortPendingJobs` | src/include/util/JobProcessor.hpp:46-51 | The loop aborts all pending jobs in their order and empties the queue |
| `JobProcessorCalls.SingleThreadedJobProcessor.BeginShutdown` | src/util/JobProcessors/SingleThreadedJobProcessor.cpp:47-56 | The section of shutdown that holds the mutex does what the transition system does |
| `JobProcessorCalls.SingleThreadedJobProcessor.ProcessOnce` | src/util/JobProcessors/SingleThreadedJobProcessor.cpp:65-82 | Each turn of the loops of the worker does what a step of the worker does |
| `TopologyForwarder.AskIsSendable` | src/monitoring/topology/NetworkForwarderTopology/NetworkForwarderTopology.cpp:116-300 | Every request can be sent, and the server takes it for the call that was made |
| `TopologyForwarder.RequestHasType` | devel/scripts/serialization-code-generator.py:320-359 | Requests are values of their class, and are read back field by field |
| `TopologyForwarder.DirectRepeats` | src/monitoring/topology/NetworkForwarderTopology/NetworkForwarderTopology.cpp:134-141 | The handles of the backend repeat the arguments that the client puts into its own handles |
| `TopologyForwarder.ReplyConcludes` | src/monitoring/topology/NetworkForwarderTopology/NetworkForwarderTopologyServer.cpp:31-206 | The client concludes the handle of the backend from the response, or null where the response looks like a null one |
| `TopologyForwarder.ForwardingIsTransparent` | src/monitoring/topology/NetworkForwarderTopology/NetworkForwarderTopology.cpp:116-446 | A forwarded call, with attribute values of any type, leaves the backend as the call itself does, and returns the same handle if and only if its response can be told from a null one |
| `TopologyForwarder.SequencesAreTransparent` | src/monitoring/topology/NetworkForwarderTopology/NetworkForwarderTopology.cpp:116-446 | Any sequence of calls has the same effect through the forwarder, and the same results, but for handles that look like null ones, which are seen as null |
| `TopologyForwarder.SameResults` | src/monitoring/topology/NetworkForwarderTopology/NetworkForwarderTopology.cpp:116-446 | The results of a sequence are all the same if and only if none of them looks like a null handle |
| `TopologyForwarderInputs.ForwardsUnlessAmbiguous` | src/monitoring/topology/NetworkForwarderTopology/NetworkForwarderTopology.cpp:116-446 | While the tables are below 2^32-1 entries, a forwarded call has the result of the call itself if and only if it does not look up, by its id, a type named -1 or an attribute of the domain 2^32-1 |
| `TopologyForwarderInputs.ForwardsUnlessStumbling` | src/monitoring/topology/NetworkForwarderTopology/NetworkForwarderTopology.cpp:116-446 | A sequence of calls has the same results through the forwarder if and only if none of its calls does so when its turn comes |
| `TopologyForwarderInputs.PlainCallsAreForwarded` | src/monitoring/topology/NetworkForwarderTopology/NetworkForwarderTopology.cpp:116-446 | As long as no type is named -1, no attribute has the domain 2^32-1 and the tables stay below 2^32-1 entries, every sequence of calls has the same results and the same effect |
| `TopologyForwarderInputs.PlainCallsOnly` | src/monitoring/topology/NetworkForwarderTopology/NetworkForwarderTopology.cpp:116-446 | The same for an empty topology, in terms of the calls alone |
| `TopologyForwarderInputs.NamedMinusOneIsLost` | src/monitoring/topology/NetworkForwarderTopology/NetworkForwarderTopologyServer.cpp:68-80 | A type named -1 that was registered is not found by its id |
| `TopologyForwarderInputs.LastDomainIsLost` | src/monitoring/topology/NetworkForwarderTopology/NetworkForwarderTopologyServer.cpp:158-173 | An attribute of the domain 2^32-1 that was registered is not found by its id |
| `TopologyForwarderInputs.LastTypeIsLost` | src/monitoring/topology/NetworkForwarderTopology/NetworkForwarderTopologyServer.cpp:43-55 | The type that gets the id 2^32-1 is registered, but its caller is given null |
| `TopologyForwarder.VariableField` | src/include/core/datatypes/VariableDatatypeJBinarySerialization.hpp:59-117 | A variable of any type is a value of the tagged union and is read back from it |
| `Reasoner.ObserveAdds` | src/include/knowledge/reasoner/AnomalyPlugin.hpp:127-163 | An observation adds one occurrence to its component and state, and one to its issue with its time, and nothing else |
| `Reasoner.MergeAdds` | src/knowledge/reasoner/modules/ReasonerStandardImplementation.cpp:173-249 | Merging the report of a component moves every count and time from the report to the gathered statistics |
| `Reasoner.MergeRaises` | src/knowledge/reasoner/modules/ReasonerStandardImplementation.cpp:271-286 | The total of each state over all components rises by what the merged report counts |
| `Reasoner.AbnormalIsNoticed` | src/knowledge/reasoner/modules/ReasonerStandardImplementation.cpp:295-324 | The assessment sees the number of an abnormal state rise if and only if an abnormal observation was merged in this cycle |
| `Reasoner.Reachable` | src/knowledge/reasoner/modules/ReasonerStandardImplementation.cpp:133-404 | The invariant of pending, drained and gathered observations holds in every interleaving of observers with the cycle |
| `Reasoner.ObservationsAreConserved` | src/include/knowledge/reasoner/AnomalyPlugin.hpp:89-163 | Occurrences, issue counts and times are pending, drained or gathered in every interleaving: nothing is lost or counted twice |
| `Reasoner.AbnormalFires` | src/knowledge/reasoner/modules/ReasonerStandardImplementation.cpp:404-414 | A cycle that merged something abnormal fires the triggers, and so does the next one |
| `Reasoner.ObservationFires` | src/knowledge/reasoner/modules/ReasonerStandardImplementation.cpp:133-414 | An abnormal observation that a plugin is given is noticed by the cycle that queries this plugin next, which fires the triggers, and so does the cycle after it |
| `Reasoner.FiredIffNews` | src/knowledge/reasoner/modules/ReasonerStandardImplementation.cpp:133-414 | In every run a cycle that is over has fired the triggers if and only if it, or the cycle before it, queried a plugin that had been given an abnormal observation since its last query, or had another reason |
| `Reasoner.NoticedWasDrained` | src/knowledge/reasoner/modules/ReasonerStandardImplementation.cpp:133-324 | A cycle notices something abnormal only if it queried a plugin that had been given an abnormal observation since its last query |
| `Reasoner.QuietRunsFireNothing` | src/knowledge/reasoner/modules/ReasonerStandardImplementation.cpp:404-414 | Without abnormal observations and other reasons no cycle ever fires |
| `Reasoner.AnomalyPlugin.AddObservation` | src/include/knowledge/reasoner/AnomalyPlugin.hpp:141-163 | The report afterwards is the specified one |
| `Reasoner.AnomalyPlugin.QueryRecentObservations` | src/include/knowledge/reasoner/AnomalyPlugin.hpp:89-100 | Hands out everything collected so far and starts over with nothing |
| `Reasoner.MergeIssueMap` | src/knowledge/reasoner/modules/ReasonerStandardImplementation.cpp:195-216 | The loop adds up the issues of both maps |
| `Reasoner.MergeReports` | src/knowledge/reasoner/modules/ReasonerStandardImplementation.cpp:173-265 | The loop over the reports of a plugin adds every count and time to the gathered statistics |

## Left out

- Weak memory orderings of the queue: its atomics and fences are modelled as sequentially consistent.
- `notify_one` and the 100 ms timeout of Pop: a waiting worker may look again at any time.
- Reference counts of activities, and the conversion of the loss count to `int` in dispatch.
- AsyncQueueSequential.ActivityMultiplexerQueue.Pop: on an empty queue that is not to end it waits for another thread, which is in the transition system only.
- Statistics of floating-point or string type: arithmetic on doubles is not exact, and strings have none.
- StatisticAverages.AverageIsNear: nothing is claimed where the samples of a window do not fit the type together, since their sum may wrap; the same holds for StatisticSpec.AverageLoses.
- Wrap-around of the 64-bit `lastIndex` of a statistic, after 58 billion years.
- `times` above the 100 ms level: the code writes only the base level, so nothing is claimed there.
- Windows of a statistic that begin before the reduction was requested.
- Topology: ids are unbounded, while the source has 32 bits for them; out of memory is not modelled.
- Topologies.Topology: its methods leave out lookups by id, attribute enumeration and getAttribute, which only read one table.
- Topology: the overloads of registerObjectByPath and lookupObjectByPath that take a vector of path elements.
- Paths that end in a slash: the source reads a flag there that it never wrote; in the model it is a parameter that may be anything.
- The topology cache, whose map compares only child names and so disagrees with its backend.
- JBinary: pointers to containers and nested containers, which the generator emits but which do not compile; the proofs cover them as if they did.
- JBinary: aliasing of pointers, since a value is a tree; memory from malloc and strndup.
- Frames: what the reading thread does after a damaged frame.
- Equation: the arithmetic on doubles and the lookup of variables are abstract.
- JobProcessorCalls.SingleThreadedJobProcessor.ICancelJob: only where no job was submitted twice; for several copies see RemoveJob.
- Job processor: enqueueFront, and jobs that are submitted twice (except in the contract of RemoveJob).
- Job processor: which call of shutdown joins the worker; in the model a worker that has returned may be joined at any time.
- Forwarder: the enumerations, which the client asserts never to be called; the waiting for a response.
- Reasoner: 32-bit overflow of its counters; the ratios, which are floating-point and enter as another reason for an anomaly; the lists of local health, which the code updates through a pointer to a loop copy; the assessment and the messages between reasoners.
- Sockets, databases, MPI, the command-line tools and the low-level C API.
