# A Dafny model of Irokle

Irokle is a signed operation log: writers append operations that name the operations they
depend on, replicas exchange them, and every replica of a topic derives the same frontier,
membership and clocks from the operations it has admitted. This project states what the log,
its clocks, its integrity scan, its history reads, its resync scheduler and its reply packing
promise, and proves it.

Signatures and hashes are abstract. An id stands for one operation content, and the digest of
a clock record stands for its bytes.

## Layout

| files | part of the system |
|---|---|
| `Prelude`, `Dag`, `Membership`, `Validity` | operations, ancestry, observed clocks, membership and policy as the greatest control decides them, and when an operation is valid at its place |
| `Store`, `Projection`, `Admission`, `Topology`, `Oplog`, `Convergence` | the stored topic, membership shortcuts, validation, batch order, admission of batches, and agreement of replicas |
| `LocalWrites`, `Genesis` | local operations, and colliding topic starts |
| `MetaTopology`, `History`, `Paging`, `Reading`, `ObservedRemove` | linearised reads, DAG walks, incremental pages, whole reader runs, and a reducer over observed clocks |
| `ActorBits`, `ClockTrie`, `ClockShape`, `ClockOps`, `ClockIter`, `ClockSelect`, `ActorClock` | the persistent clock trie against a plain map |
| `ClockStore`, `ClockScan`, `ClockCache` | stored clock records, the record validator, and the reference-counted cache |
| `IntegrityScan`, `Inspections`, `Holes` | the resumable hole scan, its verdicts while the topic grows, and what they mean for admission and reads |
| `Scheduler`, `Packing`, `Replies` | resync claims and turns, framing, and the sharing of a reply's budget |

## How the parts are modelled

A topic is a ghost `log`, the operations admitted so far, beside the real `View` a node stores.
`Store.Represents(v, log)` is the store invariant. The log is fork-free, dependency-closed and
valid at every place; each stored record and index is what the log decides. Records may be
damaged, that is missing from `ops` or `meta`; `Complete` says none is. Sets of operations carry the meaning of
everything else: `Below` is ancestry, `IsClock` says which clock a set has, `IsState` which
membership, policy and controls it decides.

Code that updates objects is a class or a method with loops; pure code is functions and
lemmas. Where the source compares allocations (`Arc::ptr_eq`) the model may or may not notice
that equal values are shared. A weak cache entry may be gone when it is asked for. Memory
limits that depend on allocator sizes are arbitrary choices. Critical sections are single
methods, so an invariant every method keeps holds over every interleaving.

Where the code and its comments say different things the model follows the code:

- `due_targets` always gives a newly served peer its first target, also when the limit on
  targets of a peer is zero (src/iroh/scheduler.rs:222-234), so a turn holds at most
  `max(maxTargets, 1)` targets.
- A step of the integrity scan may read a snapshot older than the one its cursor came from
  (src/oplog/integrity.rs:154-187). It then notes an id as a hole that a newer snapshot
  already resolves. Verdicts therefore name every hole and perhaps more.
- A request made while a claim stands at the cap of the revision counter changes no revision
  (src/iroh/scheduler.rs:140), so a clean completion can delete the target although work was
  requested meanwhile. `Scheduler.RequestShows` says when exactly a request leaves a trace.
- Decoding a clock record ignores what follows it, so one record has many byte strings. A
  loaded node is the one its record describes, whether or not the bytes are the ones the encoder would write.

## Model

| member | source | states |
|---|---|---|
| Dag.ClockCovers | src/oplog/admission.rs:957-994 | on a dependency-closed part of a fork-free history, one number per actor decides which operations are in it, both ways |
| Dag.ObservedClockIsAncestry | src/oplog/admission.rs:957-994 | a clock of an operation's dependencies reaches a position exactly when the operation there is an ancestor |
| Store.StoredClockIsAncestry | src/oplog/admission.rs:957-994 | in every store, the stored observed clock holds at least `s` for an actor if and only if the indexed operation at that position is a strict ancestor |
| Dag.MergeClock | src/oplog/admission.rs:957-994 | the pointwise maximum of two clocks is the clock of the union of their operations |
| Membership.StateUnique | src/oplog/membership.rs:97-127 | a set of operations decides one state: members, policy and winning controls |
| Membership.NewestControlDecides | src/oplog/membership.rs:80-127 | the control that decides a peer is the newest: of the highest generation, then actor, position and id; the peer is a member exactly when it adds |
| Membership.NewestPolicyDecides | src/oplog/membership.rs:80-127 | the policy is that of the newest control that sets one |
| Membership.ControlOverrides | src/oplog/membership.rs:86-88 | a control is never decided by one it stands on: the later one wins over all its ancestors |
| Membership.LastWordCounts | src/oplog/membership.rs:97-127 | after a removal that stands on every add of the peer the peer is no member, and after an add that stands on every removal it is |
| Membership.LastPolicyCounts | src/oplog/membership.rs:97-127 | a policy set on top of all others is the policy |
| Membership.ControlState | src/oplog/membership.rs:97-127 | applying one control to the state of a set gives the state of the set with it, in whatever order controls come |
| Membership.MergeState | src/oplog/membership.rs:139-185 | merging the states of two sets gives the state of their union |
| Projection.Materialize | src/oplog/membership.rs:9-78 | folding a list of operations gives the state they decide, and fails exactly without a genesis |
| Projection.MergeStates | src/oplog/membership.rs:139-185 | merging cached states of several operations gives the state of their joint ancestry |
| Projection.ProjectMembership | src/oplog/admission.rs:834-928 | the walk that stops at cached states gives the state of the whole ancestry of the dependencies, and cannot fail on readable ancestry |
| Admission.MetaForProjected | src/oplog/admission.rs:957-994 | the clock folded from the dependencies' metadata is the clock of all ancestors |
| Admission.NextGeneration | src/oplog/admission.rs:797-807 | the computed generation is one past the highest dependency and nothing else |
| Admission.HeadsShortcut | src/oplog/admission.rs:739-741 | an operation on exactly the current heads has the whole history below it |
| Admission.CoversControls | src/oplog/admission.rs:811-832 | looking only at winning controls, `true` means the current state is the state at the dependencies, and a state whose controls are all below is never missed |
| Admission.CoverageIsAncestry | src/oplog/admission.rs:811-832 | the clock test on winning controls holds exactly when those controls are ancestors |
| Admission.CheckMember | src/oplog/admission.rs:736-778 | all membership shortcuts together accept exactly the authors the full fold over the ancestry accepts |
| Admission.TipIsChain | src/oplog/admission.rs:780-796 | following the actor's stored tip is the same as linking to the previous operation of its chain |
| Admission.ValidateOpProjected | src/oplog/admission.rs:695-809 | on readable ancestry an operation passes exactly when it is valid at its own dependencies and takes a free position |
| Validity.GoodGrows | src/oplog/admission.rs:425-534 | an admissible operation keeps the history closed, fork-free, under one genesis and valid everywhere |
| Validity.GoodPart | src/oplog/admission.rs:695-809 | an operation of a good history was admissible wherever its dependencies are held, so order does not matter |
| Validity.OneAuthorAChain | src/ids.rs:117-122 | in every admitted history two operations are of one actor exactly when they are of one author |
| Topology.TopologicalOps | src/oplog/topology.rs:150-196 | a batch is linearised unless it has a cycle, and only then refused; each emitted operation is the least ready one by generation and id |
| Topology.CausalMeans | src/oplog/topology.rs:150-196 | such an order holds each operation once, after its in-batch dependencies |
| Topology.OrderUnique | src/oplog/topology.rs:168-190 | the order depends on the set of operations only |
| Topology.LaterIsHigher | src/oplog/topology.rs:168-190 | in a batch whose generations fall along dependencies the order is by generation and among equals by id, so nothing comes before what it stands on, also through operations outside the batch |
| Topology.CyclicIsCycle | src/oplog/topology.rs:191-194 | being stuck is the same as having a dependency chain that closes on itself |
| Store.AdmitKeeps | src/oplog/admission.rs:496-534 | admitting an operation updates heads, tips, indexes, generation maximum and topic state to those of the larger history |
| Store.RefillKeeps | src/oplog/admission.rs:445-464 | rewriting damaged records of a held operation keeps the store of the same history |
| Store.StoreIsFunctionOfHistory | src/oplog/admission.rs:425-545 | two undamaged stores of one history are equal in every field |
| Store.HeadsNameTheHistory | src/oplog/admission.rs:382-400 | equal heads mean equal histories, which is why a commit may be guarded by the heads it expected |
| Oplog.StoredStateIsHistory | src/oplog/admission.rs:674-693 | an operation counts as absent exactly when the history lacks it, whatever is damaged |
| Oplog.ValidateRepair | src/oplog/admission.rs:574-672 | a repair rebuilds exactly the metadata the history decides and is never refused on readable ancestry |
| Oplog.AdmitOne | src/oplog/admission.rs:425-534 | one operation of a batch is skipped, refilled, kept waiting or admitted; it waits for exactly those of its dependencies that are not stored whole, a new one unless the buffer refuses it; a refill changes records only, and what is acceptable on readable ancestry is never refused |
| Oplog.Oplog.AdmitBatch | src/oplog/admission.rs:244-545 | every batch, with or without reset, keeps the store invariant; a refused one changes nothing; each operation of a committed one is held, or waits for exactly those of its dependencies of which record or metadata is not stored, and history and records grow by operations of the batch only; a batch that extends the history to a good one is accepted and leaves the store undamaged exactly when it brings every operation the store has damaged, and the history is then the extended one; pieces of a good history in any order are accepted while none is refused a place to wait, and exactly those are admitted whose dependencies all are |
| Convergence.Replay | src/oplog/admission.rs:425-545 | a replica fed a good history in any causal batching accepts all of it |
| Convergence.Converge | src/oplog/admission.rs:425-545 | two replicas fed one history in any two causal batchings end with identical stores: heads, members, policy, controls, tips and observed clocks |
| LocalWrites.MaxGenOnHead | src/oplog/creation.rs:386-432 | the greatest generation sits on a head |
| LocalWrites.LocalGeneration | src/oplog/creation.rs:386-432 | `max_generation + 1` is one past the highest dependency |
| LocalWrites.StateForDeps | src/oplog/creation.rs:534-558 | the full walk gives the state the ancestry of the dependencies decides, and fails exactly without dependencies or when an operation below them cannot be read |
| LocalWrites.LocalIsAdmissible | src/oplog/creation.rs:386-432 | a local operation is admissible exactly when current membership permits it, because heads and tip reach the whole history |
| LocalWrites.ValidateOp | src/oplog/creation.rs:434-532 | on any store, damaged or not, local validation accepts exactly the admissible operations whose dependencies are readable: their own records, and all below them unless they are the heads |
| LocalWrites.CreateLocal | src/oplog/creation.rs:209-263 | on any store a local write succeeds exactly when the author may write, there is room and the heads and the own tip are readable as validation needs them; it then passes its own validation, becomes the only head and is stored whole on present dependencies |
| LocalWrites.WriteLocal | src/oplog/creation.rs:209-263 | a node's write under the id its hash gives is new to the history and leaves exactly the author's next operation on the frontier, or nothing: position one without a predecessor for an author who has none, otherwise one past the author's own last; the node stays valid |
| LocalWrites.CommitLocal | src/oplog/creation.rs:599-676 | with the dependencies' metadata readable, the commit leaves the store of the larger history with one head and touches no other record |
| Genesis.WithoutDescendants | src/oplog/genesis.rs:152-171 | a rejected genesis takes exactly itself and its in-batch transitive descendants; what is left are the other operations, at increasing places of the batch |
| Genesis.FindsFirstStart | src/oplog/genesis.rs:6-30 | the start of a batch is its first genesis at position one without predecessor or dependencies |
| Genesis.ResolveCollision | src/oplog/genesis.rs:21-101 | a collision resets only for a smaller genesis of the same initial peers with its author among them; any other foreign genesis is rejected with its descendants |
| Genesis.Lands | src/oplog/genesis.rs:21-101 | a committed batch leaves the replica on the settled genesis |
| Genesis.Receive | src/oplog/admission.rs:214-242 | an undamaged store commits a batch whenever the history it calls for is good, and then has exactly that history; a start that is whole by itself settles the replica even if its batch is refused; nothing that descends from a lost start is taken and the invariant is kept |
| Genesis.ReceiveAll | src/oplog/genesis.rs:45-84 | after any run, the genesis is the least of the first start taken and all later ones naming its initial peers, author among them; when each start arrives with a good history of its own, this is over all starts that arrived |
| Genesis.ReplicasAgree | src/oplog/genesis.rs:45-84 | two fresh nodes sent the same mutually eligible starts, each in its own order and among its own other batches, end on the same genesis, the least |
| MetaTopology.Block | src/oplog/topology.rs:107-115 | the worklist blocks exactly the ids with a chain of in-set dependencies from a hole |
| MetaTopology.TopologicalMeta | src/oplog/topology.rs:77-148 | exactly the ids come that are readable with every dependency readable or, within the set, coming too; they come in causal order, those freed by an earlier operation first and by the same one in id order; it fails exactly on a cycle among the ids without a hole below them |
| MetaTopology.QueueOrderUnique | src/oplog/topology.rs:123-142 | that order is fixed by the set of operations |
| History.Walk | src/history.rs:107-137 | the stack walk lists as the recursive depth-first walk, siblings in the order of the query: reachable ids once each, predecessors first without a cycle; it stops early only at an oldest-first limit |
| History.TraverseDag | src/history.rs:92-143 | the answer is the recursive listing without the excluded heads, turned for newest first and cut at the limit; reachable ids are listed once, predecessors first when there is no cycle |
| History.UnlimitedIsReachable | src/history.rs:92-143 | unlimited oldest-first with the heads returns the whole list: exactly the reachable ids |
| Paging.ExactCovers | src/node/mod.rs:1059-1064 | a cursor that stands on a dependency-closed set covers exactly that set |
| Paging.LeastIsReady | src/node/mod.rs:1010-1051 | the least waiting operation is the least of all unread ones, and its dependencies are read |
| Paging.ChoosePage | src/node/mod.rs:1032-1051 | from any cursor every operation of a page has its dependencies covered; from a closed one nothing is refused and the page is the least unread operations |
| Paging.HistoryPage | src/node/mod.rs:992-1072 | on a whole topic from a closed cursor a page never fails and holds all that is unread up to the limit asked for, at least one, the least by generation and id, in causal order; its cursor covers exactly what was read; no page exceeds the limit, and a stale genesis or an incomplete topic is refused |
| Reading.ReadRun | src/node/mod.rs:992-1072 | over any run of admissions, local writes and questions with any limits, each batch is taken as admission takes it and whole when a good history results, each write adds its operation exactly when the author may write, each question gets the least unread operations of the history of that moment, nothing given repeats or precedes a dependency, and the cursor covers exactly what was had and given |
| Reading.ShortPageCatchesUp | src/node/mod.rs:992-1072 | after a page shorter than was asked for, the reader has exactly the history of that moment |
| Reading.EveryOperationOnce | src/node/mod.rs:992-1072 | a run that ends so gave every operation the reader did not have exactly once |
| ObservedRemove.StateIsOfTheSet | examples/rdf.rs:87-112 | the reducer's state is decided by the set of records |
| ObservedRemove.RdfState.Apply | examples/rdf.rs:91-111 | one record moves the state of a set of events to that of the set with it |
| ObservedRemove.RdfState.ApplyAll | examples/rdf.rs:91-111 | any order of the records, with repeats, gives the state of their set |
| ObservedRemove.DominatesIsSubset | src/clock.rs:538-544 | on closed sets one clock dominates another exactly when its set holds the other |
| ObservedRemove.PresentMeansUnobservedAdd | examples/rdf.rs:76-80 | a quad shows if and only if some add of it is an ancestor of no remove of it |
| ActorBits.FirstDifference | src/clock.rs:162-167 | the ids agree on every nibble before the result and differ there; no result means equal ids |
| ActorBits.NibbleOrder | src/clock.rs:152-160 | byte order is decided by the first nibble that differs |
| ClockTrie.EntriesEntry | src/clock.rs:431-451 | descending along nibbles reads the map a well-formed trie denotes |
| ClockShape.ShapeIsCanonical | src/clock.rs:74-84 | two well-formed tries with the same entries have the same levels, bitmaps, lengths and children, up to the `key` field |
| ClockOps.PairWellFormed | src/clock.rs:178-192 | pairing two nodes that differ at a level gives a well-formed branch |
| ClockOps.SetNode | src/clock.rs:246-309 | setting or removing one entry changes that entry only and keeps the trie well formed |
| ClockOps.Lookup | src/clock.rs:431-451 | the descent loop answers as the trie's entries |
| ClockOps.Observed | src/clock.rs:422-429 | one entry rises to at least the count and nothing else changes |
| ClockOps.Union | src/clock.rs:311-371 | the union is the pointwise maximum on the union of the domains, zeros kept, and well formed |
| ClockOps.UnionChildren | src/clock.rs:373-420 | the same for two branches of one level, child by child |
| ClockSelect.SelectedNode | src/clock.rs:198-244 | exactly the entries of the given actors remain, well formed, nothing when none does |
| ClockIter.FlatIsEntries | src/clock.rs:579-592 | iteration yields strictly increasing actor ids, each entry once, as many as the stored length |
| ClockIter.FlatDecides | src/clock.rs:600-611 | equal listings are equal entries |
| ClockIter.ClockCursor.Next | src/clock.rs:49-62 | the cursor yields the listing item by item and its stack never holds more than 15 * 64 + 1 nodes |
| ClockIter.StackBound | src/clock.rs:579-592 | a stack of siblings by level has at most 15 * 64 + 1 nodes |
| ActorClock.ActorClock.Put | src/clock.rs:486-498 | the clock's map changes at one actor only |
| ActorClock.ActorClock.Advance | src/clock.rs:500-504 | the actor's count rises by one and is returned |
| ActorClock.ActorClock.Observe | src/clock.rs:506-510 | the actor's entry becomes the maximum |
| ActorClock.ActorClock.Set | src/clock.rs:511-514 | the actor's entry becomes the count; zero leaves no entry |
| ActorClock.ActorClock.Merge | src/clock.rs:516-521 | the map becomes the pointwise maximum of both |
| ActorClock.ActorClock.Intersect | src/clock.rs:523-536 | the result is the pointwise minimum on common actors |
| ActorClock.ActorClock.Dominates | src/clock.rs:538-544 | true exactly when every count of the other is reached |
| ActorClock.ActorClock.Equals | src/clock.rs:600-611 | true exactly when the maps are equal |
| ActorClock.ActorClock.Selected | src/clock.rs:561-577 | both code paths keep exactly the entries of the given actors |
| ActorClock.IntersectRoots | src/clock.rs:523-536 | the loop over the shorter clock computes the pointwise minimum |
| ActorClock.SelectRoot | src/clock.rs:561-577 | lookups and filtering give the same selection |
| ClockStore.HashNames | src/clock_store.rs:50-83 | with an ideal digest a hash names exactly one node |
| ClockStore.StoreUnheld | src/clock_store.rs:158-173 | storing unheld nodes, and no others, stores the whole clock, keeps every held record and keeps held subtrees complete |
| ClockStore.ChecksAreWellFormed | src/clock_store.rs:300-334 | the local checks of a branch on well-formed children make the branch well formed |
| ClockStore.NodeNames.Load | src/clock_store.rs:274-351 | whatever is loaded from arbitrary records is globally well formed; a well-formed stored node always loads; without foreign names nothing else does |
| ClockStore.NodeNames.Name | src/clock_store.rs:373-385 | naming a node keeps every name true, drops none while the cache has room, and keeps the cache within its size |
| ClockStore.StoreThenLoad | src/clock_store.rs:158-187 | storing the unheld nodes and loading the root returns the same clock, with any cache |
| ClockScan.Scan.Push | src/clock_scan.rs:61-124 | a record is accepted exactly when it is under its own digest and known, or new with a branch's own shape before the scan is complete; the scan keeps what it collected or falls back as a whole |
| ClockScan.CheckBranch | src/clock_scan.rs:137-159 | a branch passes exactly when its collected children fit it |
| ClockScan.PassedIsGood | src/clock_scan.rs:126-164 | when every collected branch passes, every collected record names a well-formed node whose records are all collected |
| ClockScan.Scan.Validate | src/clock_scan.rs:126-164 | an accepted root names a well-formed clock with all its records collected, and when all collected records do, a collected root is accepted |
| ClockScan.AcceptedRootLoads | src/clock_scan.rs:126-164 | a root the collected scan accepts loads |
| ClockCache.Cache.Remember | src/clock_store.rs:388-409 | counting a new root visits shared subtrees once and counts each edge |
| ClockCache.Cache.Release | src/clock_store.rs:411-430 | giving back a root drops exactly what only it held, without underflow |
| ClockCache.Cache.Trim | src/clock_store.rs:362-371 | roots go oldest first, each only while the cache costs more than the limit, and the trimming ends as soon as it fits or is empty |
| ClockCache.Cache.Keep | src/clock_store.rs:248-270 | a root too large or already there changes nothing; otherwise it becomes the newest, and just as many of the oldest go as it takes to fit |
| ClockCache.RetainedIsReach | src/clock_store.rs:388-430 | after any run the retained nodes are exactly those reachable from the roots, each count is its retained parent edges plus its root slot, bytes are their sum, and without roots all is zero |
| IntegrityScan.GrowsNoHole | src/oplog/integrity.rs:28-31 | neither admission nor repair creates a hole |
| IntegrityScan.GrowsTransitive | src/oplog/integrity.rs:1-5 | any number of commits between two steps still only add |
| IntegrityScan.ReadEdges | src/oplog/integrity.rs:503-537 | edges are read in order within the budget and every unresolved one is noted; the cursor left fits the position |
| IntegrityScan.ScanStep | src/oplog/integrity.rs:452-499 | a step reads at most its budget, notes everything unresolved it passes and spends the whole budget unless done; done means past the last id, and between ids it is done exactly when it ends there with fewer ids than the budget |
| IntegrityScan.ScanAll | src/oplog/integrity.rs:452-537 | steps of any budget on one snapshot end, read each id and edge once and find exactly the one-shot holes with their generations |
| IntegrityScan.JoinChecked | src/oplog/integrity.rs:403-412 | a step over an older snapshot extends what is checked of the topic as it is now |
| IntegrityScan.GrowsChecked | src/oplog/integrity.rs:383-447 | what was checked stays checked while the topic grows |
| Inspections.DoneCovers | src/oplog/integrity.rs:412-424 | a finished scan names every hole of the topic as it is now |
| Inspections.AnswerTells | src/oplog/integrity.rs:307-323 | nothing is known only while the first step of a scan reads; every other answer holds all that was found |
| Inspections.Inspections.Begin | src/oplog/integrity.rs:154-179 | one step owns a topic's scan at a time; an answer without a step is true |
| Inspections.Inspections.Finish | src/oplog/integrity.rs:386-425 | a step is saved only by the claim that still holds the scan of that key where it started, whatever other claims and keys there are; the answer names every hole and intact means none |
| Inspections.Inspections.Drop | src/oplog/integrity.rs:428-447 | a dropped claim frees its scan and keeps the cursor; a stale one changes nothing |
| Inspections.Inspections.NextSlice | src/oplog/integrity.rs:357-371 | the slice is the next cached holes in order, wrapping after a short one |
| Inspections.Inspections.Remove | src/oplog/integrity.rs:265-275 | dropping holes found stored keeps verdicts true, and only under the key that listed them |
| Inspections.Inspections.Recheck | src/oplog/integrity.rs:191-218 | rechecking a slice in any snapshot keeps verdicts true |
| Inspections.Inspections.Question | src/oplog/integrity.rs:145-151 | the answer to a question names every hole once complete, and intact means there is none; on a topic without holes that is otherwise idle, a question spends a whole budget of the scan's work or ends the scan, and after that clears cached holes until the verdict is intact |
| Inspections.Inspections.AskUntilIntact | src/oplog/integrity.rs:145-151 | an unchanging topic without holes is found intact after at most one question for each budget of work left, two for each hole cached before, and two more |
| Inspections.QuestionsBound | src/oplog/integrity.rs:145-151 | that number is at most twice the cached holes and two, beside one for each budget of work |
| Inspections.Inspections.TopicGrows | src/oplog/integrity.rs:28-31 | verdicts stay true while admission goes on |
| Holes.AdmissionGrows | src/oplog/admission.rs:440-534 | what admission and repair commit is present with its dependencies, so the scanned snapshot grows without a new hole |
| Holes.WriteGrows | src/oplog/creation.rs:599-676 | a local write creates no hole: the scanned snapshot only grows |
| Holes.IntactIsComplete | src/oplog/integrity.rs:22-32 | a topic without holes misses no record of its history |
| Holes.AdmitScanned | src/oplog/admission.rs:244-300 | a batch, with or without reset, is admitted, refused or taken whole as admission promises, and verdicts of every topic stay true |
| Holes.WriteScanned | src/oplog/creation.rs:209-263 | verdicts of every topic stay true over a local write |
| Holes.ReadScanned | src/node/mod.rs:992-1001 | under an intact verdict any closed cursor is given its next page, otherwise the read is refused as incomplete; a topic found intact stays readable |
| Holes.ReadUndamaged | src/node/mod.rs:992-1001 | on an undamaged, unchanging topic a bounded number of questions ends in the delivery of the next page |
| Scheduler.GiveTurns | src/iroh/scheduler.rs:219-236 | turns are fair: a peer or target is left out only when earlier ones fill the room |
| Scheduler.UnservedIsLater | src/iroh/scheduler.rs:219-236 | an unserved due peer means `max_peers` peers with targets due no later were served |
| Scheduler.OneOwner | src/iroh/scheduler.rs:200-264 | at most one unfinished attempt owns a target |
| Scheduler.CurrentIsUnspent | src/iroh/scheduler.rs:281-322 | a claim is current exactly until it is completed or handed back, and never again |
| Scheduler.BackoffGrows | src/iroh/scheduler.rs:371-376 | the pause grows with failures between its first value and its cap |
| Scheduler.BackoffDoubles | src/iroh/scheduler.rs:371-376 | the first pause is the initial one, the next twenty double it up to the cap, and then it stays |
| Scheduler.RequestShows | src/iroh/scheduler.rs:138-150 | a request leaves revision and force mark as they were exactly at the cap of the revision counter |
| Scheduler.LostAtTheCap | src/iroh/scheduler.rs:138-150 | there a claim cannot tell a request made after it |
| Scheduler.ResyncScheduler.ScheduleAfter | src/iroh/scheduler.rs:128-166 | a request adds one revision up to the cap, makes a new target due at the time asked for and an idle one no later, never delays a target and leaves a claim with its owner |
| Scheduler.ResyncScheduler.Reconsider | src/iroh/scheduler.rs:170-198 | a claimed target is left alone and backoff is kept |
| Scheduler.ResyncScheduler.DueTargets | src/iroh/scheduler.rs:200-264 | only due targets of peers none of whose targets is claimed are claimed, a peer's in order of due time and topic, all in one call, at their present revision; every target taken is owned by a claim returned, peers once and in order, one id for each claim; while ids last a target that may be taken is claimed unless its peer's turn is full of earlier ones or as many peers as may be begin with earlier ones |
| Scheduler.ResyncScheduler.CompleteClean | src/iroh/scheduler.rs:281-298 | takes effect once and for its own attempt, and deletes the target exactly when nothing was requested since the claim, or when the claim was taken at the revision cap and no new force mark was set |
| Scheduler.ResyncScheduler.CompleteDirty | src/iroh/scheduler.rs:300-322 | takes effect once; below the cap the target waits unless work came meanwhile, and a newer force request survives |
| Scheduler.ResyncScheduler.CompleteFailed | src/iroh/scheduler.rs:358-382 | takes effect once; the target backs off and forces its retry |
| Scheduler.ResyncScheduler.ReleaseClaim | src/iroh/scheduler.rs:385-400 | hands a claim back once, without touching another attempt's |
| Scheduler.ResyncScheduler.EndAttempt | src/iroh/scheduler.rs:112-116 | in any run an attempt is found live by at most one end, however late another comes, because ids are never given twice |
| Scheduler.ResyncScheduler.BeginAttempts | src/iroh/scheduler.rs:95-109 | attempts begun outside a turn get an id no claim has, or none when ids are exhausted |
| Scheduler.LiveAttempts.Drop | src/iroh/scheduler.rs:85-92 | afterwards no end finds one of these attempts live, and the others are untouched |
| Scheduler.ResyncScheduler.PeerReachable | src/iroh/scheduler.rs:339-355 | backoff of the peer's targets ends; claims stay |
| Scheduler.ClaimGuard.Drop | src/iroh/scheduler.rs:501-507 | an unsettled guard frees its claim, a settled one does nothing |
| Scheduler.ResyncLease.TakeClaim | src/iroh/scheduler.rs:452-454 | a claim moves from the lease to one guard |
| Scheduler.ResyncLease.Drop | src/iroh/scheduler.rs:509-515 | dropping a lease frees exactly the claims it still holds |
| Packing.PackHolds | src/net.rs:54-123 | packing keeps the operations in order, within the frame and count caps |
| Packing.SyncDataPage | src/net.rs:54-123 | the page is the packing of an exact prefix with its framed size, within both budgets, cut exactly when the next operation would overflow; it fails exactly at an operation no frame can hold |
| Packing.PageIsLongestPrefix | src/net.rs:48-53 | no longer prefix fits the budgets |
| Packing.CountLenIsGroups | src/net.rs:60-62 | a count is framed in as many bytes as it has groups of seven bits |
| Replies.EqualSplit | src/iroh/session.rs:308-311 | an equal split is at least the first one and leaves enough for the others |
| Replies.ShareIsEqual | src/iroh/session.rs:308-311 | a share is what is left divided equally, nothing less |
| Replies.EmptyPage | src/iroh/session.rs:389-402 | a page of planned data is empty exactly when the first operation does not fit the share |
| Replies.ServeOne | src/iroh/session.rs:308-415 | one request spends no more than its share: it is answered with the longest prefix of its planned data that fits and a page result, or with a failure; it waits for the second pass, stops the slice or breaks it exactly under the stated conditions on its plan and share |
| Replies.RunPass | src/iroh/session.rs:300-416 | each request the pass comes to is served as planned from an equal split of what is left, deferred unchanged, or the end of the pass, by exact conditions; the limits hold, no split divides by zero or is below the first, and each request is answered or kept |
| Replies.FinishSlice | src/iroh/session.rs:254-419 | a slice is the controls in order and the two passes over them, each with fair shares: it stays within the stream's bytes and messages, answers every request once or keeps it for the next slice, and is refused exactly when the controls with empty page results exceed the limits or a pass comes to a planned operation no frame can hold |
| Replies.SecondShare | src/iroh/session.rs:300-311 | a deferred request has at least its first share when it comes again exactly when the limits then hold that much for it and each request behind it; so whenever the spending in between is within that share for each request that waits no longer |
| Replies.SecondShareCanVanish | src/iroh/session.rs:300-311 | two requests where the deferred one comes to an empty share, because the other spends all that is left |
| Replies.NeverFails | src/iroh/session.rs:389-394 | when every operation the planner gives fits some frame no pass fails, so only the controls can refuse a slice |

## Left out

- Signing, blake3, postcard and serde: ids are numbers with one content each, and digests are ideal.
- Actor ids in the log core are the author's id, so an author has one actor; the trie core has the 32-byte ids.
- The pending buffer: whether it takes an operation with missing dependencies is an arbitrary verdict, and its drain order is not modelled.
- Retries, pauses and turn locks of admission: a commit is one atomic step, and `Store.HeadsNameTheHistory` says why guarding it by heads is enough.
- Projection workspace charges, the byte budget of the membership cache and every allocator-dependent size: which entries are dropped is arbitrary.
- Eviction records of a reset topic: the discarded payloads and their re-emission.
- Several topics in one oplog: topics are independent, and the model has one; `Inspections` has many.
- Storage backends: reads are lookups, ordered listings and snapshots of the stored maps.
- The sealed state of a topic, which makes a reset fail.
- ClockStore.NodeNames.Load: does not model that a loaded node remembers the digest it was read under; a node's own digest is computed from its encoding.
- ClockStore.StoreUnheld: does not fix the order in which records are handed out.
- ClockCache.Cache.Keep: requires that live nodes at one address are one node, which the allocator provides; what its tables take is an arbitrary function of the roots gone.
- ClockScan.Scan.Push: does not model the byte bound after which the scan falls back; it may fall back at any record.
- IntegrityScan.ScanStep: requires a cursor a step left behind, so that its dependency cursor matches a stored position.
- Inspections.Inspections.Begin: does not model waiting for a running step to end.
- The registry of live attempts is not tied to outstanding claims, because one path settles a claim without ending its attempt (src/iroh/mod.rs:1642-1646).
- Packing.SyncDataPage: does not model the saturation of byte sums at the machine's word.
- Replies.FinishSlice: does not model how the memory grant and the credit bound the planner; the planner is an arbitrary function of the pass, the request, its share and the reply so far. A failure message is assumed no longer than an empty page result.
- Genesis.ReceiveAll: counts a start that arrives without a good history of its own only if its batch commits.
- Networking, connection pools, timeouts, shutdown, receipts, request logs and bootstrap quotas.
- Clock serialisation as a flat map and its selective decoding (src/clock_store.rs:86-131).
