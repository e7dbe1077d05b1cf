# Verified model of Mallob's scheduling core

Mallob is a decentralized scheduler for malleable jobs: every worker runs at most one job node at a time, and the
number of workers of a job changes while it runs. This project models the parts of Mallob on which the correctness
of that scheme rests, and of two solver routines bundled with it, and proves what they promise:

- **Volume calculation** (`Sums`, `FairShare`, `VolumeSearch`, `VolumeResult`, `VolumeCalculator`): how many
  workers each job gets. The cached, early-terminating bisection is proved to agree with evaluating every job from
  scratch, to terminate, and to hand out exactly as many workers as are available or asked for, without priority
  inversion. Its result is a function of the set of jobs, not of their order.
- **Hop graph and routing** (`Permutations`, `AdjustablePermutation`, `PermutationGraph`, `Routing`, `RoutingTree`,
  `IdleCounts`): the Feistel permutation with cycle walking is a bijection, the pairwise disjoint permutations form
  a strongly connected graph of exact degree, and the shortest-path tables that workers compute independently fit
  together into one spanning tree per root. Statuses reported along these trees come to count every idle worker
  exactly once.
- **Event-driven balancing** (`EventTypes`, `EventMap`, `EventOrder`, `EventBytes`, `BalancerTree`, `Balancer`,
  `BalancerProtocol`, `BalancerSafety`, `BalancerVolumes`, `BalancerOrder`, `BalancerEnd`, `BalancerRevival`,
  `EventSource`): reduction and broadcast along a binomial tree over FIFO links (section 3.5 of MPI 3.1). In every
  run, workers of the same epoch hold the same state and compute the same volumes, no event is lost, and no run
  aborts whose events are determined by job and epoch. The workers' counters achieve that until a counter is opened
  again for a job with a counted event, at the same or another worker, or used up, and from then on not. A job can
  come back after its end without another push exactly if another event of it is still on its way, which the order
  of probe, root and end rules out. Event maps survive the trip through bytes.
- **Reactivation-based scheduling** (`TreeIndices`, `InactiveNodes`, `NodeReturns`, `Session`, `SchedulerSteps`,
  `LocalScheduler`, `NodeVisits`, `NodeTrees`, `NodeExchange`): ordered sets of inactive nodes scoped to subtrees,
  the suspend/return/resume life cycle, and conservation of nodes through an exchange between a parent and a child
  that serves any sequence of calls, and in subtrees of any depth.
- **Adoption of jobs at one worker** (`JobDatabase`, `Worker`): at most one job is active or committed after any
  sequence of messages, and no assertion fails that the modelled members of the database and of jobs make.
- **Message queue** (`Fragmentation`, `MessageTransport`, `SendSlots`): fragments arriving in any order and
  interleaving are reassembled to the original bytes; bounded send slots are served in order.
- **Failed assumptions in CaDiCaL** (`Clauses`, `FailedAssumptions`): the clause collected from the implication
  graph is implied by the formula and consists of negated assumptions.
- **Cube splitting in Treengeling** (`Clauses`, `Cubes`, `Treengeling`): open cubes and closed clauses partition
  all assignments, so the answer "unsatisfiable" is right if each closed cube was refuted.

`Basics` holds what several modules share. Code that changes objects step by step is modelled by classes and loops
whose contracts refer to functions on values; properties that span several operations are lemmas about those
functions. Message passing is modelled by state machines whose runs are sequences of enabled steps, and the main
theorems hold for every run.

Modelling assumptions:

- Multipliers, priorities and fair shares are exact reals; the constant 1e-6 that is added to the largest
  multiplier is kept.
- Integers are unbounded unless said otherwise. Sizes stay far below the limits of `int`; the routing table needs
  fewer than 2^31 - 2 workers, since its code uses the largest `int` as infinity.
- The number of batches of a message is the exact integer ceiling. The code rounds a `float` quotient, which agrees
  for sizes up to 2^24 bytes.
- Hash functions are parameters. Workers break ties of equal distance by a hash; the model takes any unvisited node
  that no other precedes, which is the one the code takes when the hash is injective. The square of the Feistel
  tables' size is at least the number of values.
- Ties between remaining jobs of equal priority are broken as in the code: a dismissal does not move
  `originalDemand` with the other fields, so the tie-break by original demand may use another job's value.
- Random draws, readiness of periodic events, answers of message tests, ages of jobs and the knowledge of other
  components at the moment of a handler are parameters, so the results hold for all of them.
- The sum of a capped evaluation, `_prev_lb == -1` as a mark for "no previous bounds" and other in-band marks are
  kept as they are in the code.

## Model

| member | source | states |
|---|---|---|
| FairShare.ShortcutsAgree | src/balancing/balancing_entry.hpp:26-35 | the overflow protection in getVolume never changes the volume: both shortcuts give the clamped floor of multiplier times fair share |
| FairShare.VolumeMonotone | src/balancing/balancing_entry.hpp:26-35 | a larger multiplier never gives a job fewer workers |
| FairShare.VolumeAtLowerBound | src/balancing/balancing_entry.hpp:37-39 | up to the lower bound multiplier a job gets exactly one worker |
| FairShare.VolumeAtUpperBound | src/balancing/balancing_entry.hpp:41-43 | from the upper bound multiplier on a job gets its full demand |
| FairShare.NoPriorityInversion | src/balancing/volume_calculator.hpp:196-208 | in a fair result a job of strictly higher priority and no smaller demand never gets fewer workers |
| VolumeSearch.DismissPermutes | src/balancing/balancing_entry.hpp:45-69 | the swap of a dismissed entry only permutes the (job, priority, demand, fair share) entries and leaves those behind it alone |
| VolumeSearch.HalvingProgress | src/balancing/volume_calculator.hpp:226-232 | as long as some volume differs by two between the bounds, a bisection strictly lowers the number of rounds that remain |
| VolumeSearch.FairSharesExhaustVolume | src/balancing/volume_calculator.hpp:124-125 | the fair shares sum up to the available volume and follow the priorities |
| VolumeSearch.OneIsInside | src/balancing/volume_calculator.hpp:154-156 | with fewer jobs and more demand than workers, the first multiplier 1 lies strictly between the extreme multipliers |
| VolumeSearch.CenterIsInside | src/balancing/volume_calculator.hpp:131-143 | so does the center of mass, the second multiplier tried |
| VolumeSearch.CapLosesNothing | src/balancing/volume_calculator.hpp:126-126 | capping demands at the largest reachable volume changes the minimum of available volume and total demand in no case |
| VolumeSearch.BracketingHalves | src/balancing/volume_calculator.hpp:215-224 | the half interval chosen by the sign of the excess still brackets the wanted multiplier |
| VolumeSearch.BonusIsFair | src/balancing/volume_calculator.hpp:196-208 | one extra worker for the first remaining jobs in priority order is a fair assignment |
| VolumeCalculation.VolumeCalculator.constructor | src/balancing/volume_calculator.hpp:42-60 | one entry in order for each job with demand, and for each one without, with the demand and priority of its event and a volume of one; priorities of the former are summed up |
| VolumeCalculation.VolumeCalculator.ComputeFairShares | src/balancing/volume_calculator.hpp:115-144 | fair shares, capped demands, their sum, the extreme multipliers and the center of mass |
| VolumeCalculation.VolumeCalculator.CalculateExcessVolumeOrNegative | src/balancing/volume_calculator.hpp:240-291 | the cached and cut-off evaluation has the sign of the excess computed from scratch and equals it when it is not negative; jobs are at most permuted |
| VolumeCalculation.NarrowInterval | src/balancing/volume_calculator.hpp:215-232 | the next interval and multiplier |
| VolumeCalculation.VolumeCalculator.HandOutRemaining | src/balancing/volume_calculator.hpp:178-213 | the last workers go to remaining jobs by priority, one each, until none is left; nothing but the assignment changes |
| VolumeCalculation.VolumeCalculator.SearchMultiplier | src/balancing/volume_calculator.hpp:146-238 | the search terminates with all workers assigned and volumes v(alpha) or v(alpha)+1 for one common multiplier |
| VolumeCalculation.VolumeCalculator.CalculateResult | src/balancing/volume_calculator.hpp:62-83 | with fewer jobs than workers: the same jobs, with a share of the available volume in proportion to priority and the demand capped at what other jobs leave; for one common multiplier each job gets its part of the available volume by priority, rounded down, at least one and at most its demand, or one worker more, higher priorities first; the total is the minimum of available volume and sum of original demands; otherwise nothing changes; the result is that of the calculation as a function |
| VolumeCalculation.JobsKept | src/balancing/volume_calculator.hpp:124-126 | every entry has a share in proportion to its priority among all jobs and a capped demand of its job, and every job has such an entry |
| VolumeCalculation.FairIsProportional | src/balancing/balancing_entry.hpp:26-35 | volumes at a common multiplier of fair shares are parts of the available volume by priority, rounded down |
| VolumeResult.OneEnd | src/balancing/volume_calculator.hpp:146-238 | the search, iteration by iteration, ends with one result |
| VolumeResult.OneOrder | src/balancing/volume_calculator.hpp:94-109 | entries of distinct jobs can be ordered by the comparator in one way only |
| VolumeResult.OneResult | src/balancing/volume_calculator.hpp:62-83 | the calculation gives every job the same volume whatever the order in which the jobs are listed |
| AdjustablePermutations.PassInjective | src/util/permutation.cpp:228-243 | one pass of the Feistel network is injective for every choice of round tables |
| AdjustablePermutations.RoundsUndone | src/util/permutation.cpp:228-243 | taking the tables' values off again, last round first, leads back to the halves a pass began with |
| AdjustablePermutations.ReturnExists | src/util/permutation.cpp:228-261 | repeating the pass from a value below n leads to a value below n again, so cycle walking terminates |
| AdjustablePermutations.WalkedInjective | src/util/permutation.cpp:214-264 | cycle walking maps different values to different values |
| AdjustablePermutations.WalkedIsPermutation | src/util/permutation.cpp:214-264 | the unadjusted permutation is a bijection of [0, n) for every n and all round tables |
| AdjustablePermutations.RunNetwork | src/util/permutation.cpp:229-243 | the loop over the rounds computes one pass |
| AdjustablePermutations.Walk | src/util/permutation.cpp:225-263 | the loop ends at the first value below n |
| AdjustablePermutations.Normalize | src/util/permutation.cpp:215-219 | any integer is mapped to its remainder modulo n |
| AdjustablePermutations.AdjustablePermutation.Get | src/util/permutation.cpp:214-264 | the value at a position, adjusted if there is an adjustment |
| AdjustablePermutations.AdjustablePermutation.Adjust | src/util/permutation.cpp:266-273 | exactly one position changes its value |
| PermutationGraph.IntrinsicPartners | src/util/permutation.cpp:18-26 | the first permutation is a single cycle through all values, without fixed points |
| PermutationGraph.FindSwap | src/util/permutation.cpp:53-69 | both values of an accepted swap are allowed at their new positions |
| PermutationGraph.MakeDisjoint | src/util/permutation.cpp:47-75 | the result is still a permutation, and no value is a fixed point or one of an earlier permutation at its position |
| PermutationGraph.GetPermutations | src/util/permutation.cpp:9-91 | permutations without fixed points for n >= 2, any two disagree everywhere, the first is a single n-cycle |
| PermutationGraph.CreateExpanderGraph | src/util/permutation.cpp:114-127 | a worker's outgoing edges are its distinct successors |
| PermutationGraph.OutDegree | src/util/permutation.cpp:124-126 | every worker has exactly as many successors as there are permutations |
| PermutationGraph.InDegree | src/util/permutation.cpp:40-78 | and exactly as many predecessors |
| Routing.HopGraphConnected | src/util/permutation.cpp:13-26 | every worker reaches every worker |
| Routing.FollowEdges | src/util/permutation.cpp:156-175 | following the edges of the current node relaxes all its successors and keeps distances sound |
| Routing.NoShorterPath | src/util/permutation.cpp:153-178 | once no node is left, no path is shorter than the recorded distance |
| Routing.HopIsFirst | src/util/permutation.cpp:161-174 | the recorded edge is the first hop of a shortest path: the distance from there is one less |
| Routing.GetBestOutgoingEdgeForEachNode | src/util/permutation.cpp:134-190 | every table entry is the first hop of a shortest path, whatever the tie-breaking |
| RoutingTree.ComputeAllTables | src/worker.cpp:176-183 | all workers compute such tables over the same hop graph |
| RoutingTree.TablesFormTree | src/balancing/collective_assignment.cpp:203-210 | for any root the tables of all workers form one spanning tree along edges, and a worker's depth is its distance |
| RoutingTree.AncestorDepth | src/balancing/collective_assignment.cpp:208-210 | each hop to the parent lowers the distance by exactly one; the root is reached after depth many hops and not before |
| RoutingTree.NoCycle | src/balancing/collective_assignment.cpp:208-210 | following parents never returns to a worker other than the root |
| RoutingTree.EpochTree | src/balancing/collective_assignment.cpp:203-210 | this holds for the root of every epoch |
| RoutingTree.RootCountsAllIdle | src/balancing/collective_assignment.cpp:169-176 | once all statuses along the tree are up to date, the root counts every idle worker exactly once |
| IdleCounts.CollectiveAssignment.GetAggregatedStatus | src/balancing/collective_assignment.cpp:169-176 | the worker's own status plus the statuses of all children, in any order |
| IdleCounts.CollectiveAssignment.Advance | src/balancing/collective_assignment.cpp:178-201 | a newer epoch clears the statuses; a changed status is reported unless this is the root of the epoch |
| IdleCounts.CollectiveAssignment.HandleStatus | src/balancing/collective_assignment.cpp:37-59 | an obsolete status is dropped, one of a newer epoch starts that epoch, and it is stored |
| IdleCounts.TablesAreTrees | src/balancing/collective_assignment.cpp:203-210 | routing tables of a hop graph satisfy what the network of workers asks of them |
| IdleCounts.StepKeepsInvariant | src/balancing/collective_assignment.cpp:37-201 | each step keeps: an unchanged status is known to the parent of the epoch or is the last report on its way there, unless the parent is in a newer epoch; and only children of the epoch have statuses |
| IdleCounts.IdleCountIsExact | src/balancing/collective_assignment.cpp:169-201 | in every run, once all workers are in one epoch and no status is left to report, the root of that epoch counts every idle worker exactly once |
| EventMaps.EventMap.InsertIfNovel | src/balancing/event_map.hpp:129-137 | an event replaces what is known of its job exactly if it is newer |
| EventMaps.EventMap.UpdateBy | src/balancing/event_map.hpp:165-173 | job by job the newer event, the larger epoch; reports exactly whether something changed |
| EventMaps.EventMap.FilterBy | src/balancing/event_map.hpp:141-164 | keeps exactly the events newer than the other map's; aborts exactly on two different events of one job and epoch |
| EventMaps.EventMap.RemoveOldZeros | src/balancing/event_map.hpp:174-185 | removes exactly the entries without demand and priority |
| EventOrder.Merge | src/balancing/event_map.hpp:73-113 | the larger epoch, and by a walk over two ordered maps an ordered map with the newer event of each job, on equal epochs the other map's |
| EventOrder.MergeAgreesWithUpdate | src/balancing/event_map.hpp:73-173 | merging agrees with inserting one by one if and only if no job has different events of equal epoch in the two maps |
| EventBytes.Serialize | src/balancing/event_map.hpp:45-56 | the bytes are the epoch followed by the four fields of each event |
| EventBytes.EncodeDigits | src/balancing/event_map.hpp:45-56 | the bytes of a number are its digits to the base 256, the lowest one first |
| EventBytes.FieldsAt | src/balancing/event_map.hpp:45-56 | after eight bytes of epoch, event i has job, epoch, demand and priority at offsets 0, 4, 8 and 12 of its sixteen bytes |
| EventBytes.Deserialize | src/balancing/event_map.hpp:57-72 | reads as many whole events as there are bytes for, later ones of a job replacing earlier ones |
| EventBytes.RoundTrip | src/balancing/event_map.hpp:45-72 | reading what was written gives back epoch and entries of every map, also of an empty one |
| BalancerTree.ComputeParent | src/balancing/event_driven_balancer.cpp:20-32 | the parent of a rank is the rank without its lowest bit |
| BalancerTree.ComputeChildren | src/balancing/event_driven_balancer.cpp:34-47 | the children are exactly the ranks with this parent, each listed once, and odd ranks have none |
| BalancerTree.OneParent | src/balancing/event_driven_balancer.cpp:20-47 | every rank but the root is in exactly one child list, of a smaller rank |
| Balancing.Balancer.PushEvent | src/balancing/event_driven_balancer.cpp:141-155 | a novel event enters the diffs, which are sent on if it is time |
| Balancing.Balancer.Advance | src/balancing/event_driven_balancer.cpp:157-169 | non-empty diffs are reduced |
| Balancing.Balancer.HandleReduction | src/balancing/event_driven_balancer.cpp:176-190 | data joins the diffs; they go to the parent, or from the root as a broadcast with the next epoch |
| Balancing.Balancer.HandleBroadcast | src/balancing/event_driven_balancer.cpp:191-201 | a broadcast is passed on and digested |
| Balancing.Balancer.Digest | src/balancing/event_driven_balancer.cpp:204-225 | state, epoch, basis of the volumes and remaining diffs after a digest |
| BalancerSafety.RunKeepsInvariant | src/balancing/event_driven_balancer.cpp:141-225 | in every run, each worker's state is the replay of the first broadcasts, as many as its epoch says, each link holds exactly the broadcasts in between, only issued events exist, and none is lost |
| BalancerSafety.Agreement | src/balancing/event_driven_balancer.cpp:176-225 | workers that have digested the same epoch hold identical states and computed volumes from identical states |
| BalancerVolumes.ComputeVolumes | src/balancing/event_driven_balancer.cpp:238-239 | the jobs with a demand share the available volume in proportion to their priorities, or have one worker each if there are too many; the volumes are those that the calculation, as a function, makes of the events |
| BalancerVolumes.VolumesAgree | src/balancing/event_driven_balancer.cpp:227-248 | workers that have digested the same epoch compute identical volumes for every job, in whatever order their maps list the events |
| BalancerSafety.AgreementAcrossTime | src/balancing/event_driven_balancer.cpp:176-225 | also when they reach that epoch at different times |
| BalancerSafety.NoEventLost | src/balancing/event_map.hpp:129-173 | for every issued event, some diffs, some upward message or the broadcast history holds an event of that job at least as new |
| BalancerSafety.NoAbort | src/balancing/event_map.hpp:141-164 | if job and epoch determine the event, no run reaches the abort |
| BalancerSafety.ConflictAborts | src/balancing/event_map.hpp:141-164 | the condition is needed: any two different events of one job and epoch, the first of which is not an end, abort the root that digests one after the other |
| BalancerSafety.QuiescentAgreement | src/balancing/event_driven_balancer.cpp:176-225 | when nothing waits or travels, all workers hold the same state, with the newest issued event of every job that was not terminated |
| BalancerSafety.ReplayKeepsNewest | src/balancing/event_map.hpp:129-173 | digesting broadcasts one by one keeps an event at least as new as any broadcast one |
| BalancerOrder.JoinKeepsLined | src/balancing/event_driven_balancer.cpp:176-178 | the oldest event on a child's link is not older than what its parent holds or sent on, and not newer than what follows |
| BalancerOrder.StepMoves | src/balancing/event_driven_balancer.cpp:141-225 | apart from what it pushes or takes from a link, a step only moves a job's event out of one worker's diffs, behind what that worker sent before, or drops it |
| BalancerOrder.RunKeepsLined | src/balancing/event_driven_balancer.cpp:141-225 | from any point of any run on, if one worker pushes the events of a job from some epoch on, with growing epochs, only the path from there to the root holds them, and nearer to the root they are older |
| BalancerOrder.StepKeepsPlace | src/balancing/event_driven_balancer.cpp:141-225 | a step keeps an event that was pushed once in one place: the diffs of one worker, one message of one link, or one broadcast |
| BalancerEnd.StepInvents | src/balancing/event_driven_balancer.cpp:141-225 | a step neither puts on its way nor broadcasts an event that was not on its way before or pushed by it |
| BalancerEnd.EndIsFinal | src/balancing/event_driven_balancer.cpp:113-127 | if no event of a job is on its way, one worker then pushes newer events with growing epochs and the last one is the end, no worker that has digested a broadcast of the end holds the job, then or later, and only the end is still on its way |
| BalancerEnd.ProbeSettles | src/data/job_database.cpp:649-652 | once a worker holds a job of which only one event was pushed, at any worker, nothing of the job is on its way |
| BalancerEnd.ProbedJobEnds | src/worker.cpp:1062-1069 | so a job that is probed at one worker, held by some worker, and then announced by one other worker up to its end does not come back |
| BalancerRevival.NothingComes | src/balancing/event_map.hpp:174-185 | if the root does not hold a job and no event of it but an end is on its way, no continuation without a push of it makes the root hold it |
| BalancerRevival.WaitingArrives | src/balancing/event_driven_balancer.cpp:157-202 | whatever waits or travels can be brought to the root by steps without a push, in any system of any number of workers, unless two issued events conflict |
| BalancerRevival.ComesBackIff | src/balancing/event_map.hpp:174-185 | in every reachable system, a job can come back without another push exactly if the root holds it or an event of it that is not an end is on its way |
| BalancerRevival.EndedForGood | src/balancing/event_map.hpp:174-185 | after an end as above it cannot |
| BalancerRevival.LateEventRevives | src/balancing/event_map.hpp:174-185 | for any number of workers and any worker off the path of the announcing one, an older event of it can arrive after the end was digested and forgotten, and brings the job back |
| EventSources.EventSource.Probe | src/balancing/event_driven_balancer.cpp:63-68 | the first event of a job |
| EventSources.EventSource.Activate | src/balancing/event_driven_balancer.cpp:70-89 | a root's first activation opens a counter at one and issues nothing; a further one issues the next number with the demand and priority given |
| EventSources.EventSource.DemandChange | src/balancing/event_driven_balancer.cpp:91-100 | an event with the next number of the job and the demand and priority given |
| EventSources.EventSource.Suspend | src/balancing/event_driven_balancer.cpp:102-111 | a suspended root announces a demand of one with the next number |
| EventSources.EventSource.Terminate | src/balancing/event_driven_balancer.cpp:113-127 | the last event, issued exactly if the worker is root with a counter, which is given up |
| EventSources.CallIsSafe | src/balancing/event_driven_balancer.cpp:63-127 | every call keeps job and epoch a key of the issued events, unless it opens a counter for a job with a counted event or uses up a counter |
| EventSources.SafeUntilReuse | src/balancing/event_driven_balancer.cpp:63-127 | so does every sequence of calls without such a call |
| EventSources.ReuseBreaks | src/balancing/event_driven_balancer.cpp:81-127 | from every state in which such a call is made, further calls lead to two different events of the same job and epoch |
| EventSources.UnionIsSafe | src/balancing/event_driven_balancer.cpp:63-127 | the events of several such workers have job and epoch as a key if each job has counted events at one worker at most |
| EventSources.AllSafeUntilCollision | src/balancing/event_driven_balancer.cpp:63-127 | for any number of workers and any sequence of their calls, job and epoch determine the event among those of all workers until a call reuses a number or opens a counter for a job that another worker counts or has counted events of |
| EventSources.CounterBehindBreaks | src/balancing/event_driven_balancer.cpp:97-110 | if one worker has counted an event and another has a counter of the job behind it, further calls lead to two different events of the same job and epoch |
| EventSources.CollisionBreaks | src/balancing/event_driven_balancer.cpp:81-127 | from every safe state of all workers in which a call collides, further calls lead to two different events of the same job and epoch |
| EventSources.NoAbortFromSources | src/balancing/event_map.hpp:141-164 | no run of the protocol aborts whose events come from workers whose calls do not collide |
| EventSources.NumbersGrow | src/balancing/event_driven_balancer.cpp:91-127 | a later event of a job has the larger number as long as the job is not terminated in between |
| EventSources.AnnouncedJobEnds | src/worker.cpp:1062-1069 | a job that is probed at any worker, passed on once the probe is digested and then announced by its root in the order of its calls does not come back after its end |
| EventSources.NewestIsLast | src/balancing/event_driven_balancer.cpp:70-127 | in every sequence of calls that reuses no number, the newest event that a root has issued for a job that it has not ended carries the demand and priority of its last demand change or repeated activation, or a demand of one after a suspension |
| EventSources.RestingDemand | src/balancing/event_driven_balancer.cpp:70-225 | when nothing waits or travels, every worker holds the demand and priority that the root of a job announced last, for every job that was not ended |
| TreeIndices.LayerExact | src/scheduling/job_scheduling_update.hpp:88-97 | within its layer an index belongs to a subtree exactly if it is not before the leftmost index |
| TreeIndices.Siblings | src/scheduling/job_scheduling_update.hpp:239-263 | in every layer the left child's subtree ends where the right child's begins |
| TreeIndices.OneChild | src/scheduling/job_scheduling_update.hpp:229-267 | a strict descendant lies below exactly one of the two children |
| InactiveNodes.InsertedElements | src/scheduling/job_scheduling_update.hpp:23-28 | insertion into the ordered set keeps the order and adds a node exactly if its key is new |
| InactiveNodes.ExtractSubtree | src/scheduling/job_scheduling_update.hpp:77-102 | the extracted set is exactly the (strict) descendants and the remainder exactly the rest |
| InactiveNodes.CleanUpStatuses | src/scheduling/job_scheduling_update.hpp:104-115 | exactly the nodes that are not lost remain, all available |
| InactiveNodes.FilterDuplicates | src/scheduling/job_scheduling_update.hpp:117-144 | exactly the best node of each rank remains: the newest epoch, then the first in order |
| InactiveNodes.MergePreferringNewer | src/scheduling/job_scheduling_update.hpp:60-63 | one node per rank of the union, of the newest epoch of that rank in either set |
| InactiveNodes.RightOfSplit | src/scheduling/job_scheduling_update.hpp:238-263 | the descent along right ends decides membership in the right child's subtree |
| InactiveNodes.Split | src/scheduling/job_scheduling_update.hpp:229-267 | every node goes into exactly one half, a strict descendant into the one whose subtree contains it; nodes before the first child alternate |
| Sessions.ChildInterface.HandleBalancingUpdate | src/scheduling/session.hpp:30-58 | only newer epochs count. A missing but wanted child is asked for: the first node of its index that is not lost if there is one, and nodes within the volume that are not lost become available. Otherwise exactly those are released and all become busy |
| Sessions.ChildInterface.RecruitChild | src/scheduling/session.hpp:135-158 | a directed request goes to the first available node of the child's index, at most four times per epoch; otherwise these nodes are released |
| Sessions.ChildInterface.NotifyRemainingInactiveNodes | src/scheduling/session.hpp:160-170 | exactly the available nodes (of an index) get one release each and become busy |
| Sessions.ChildInterface.AddJobNodesFromSuspendedChild | src/scheduling/session.hpp:61-66 | the child no longer holds nodes; nodes are merged preferring newer ones |
| Sessions.ChildInterface.HandleRejectionOfPotentialChild | src/scheduling/session.hpp:68-73 | the asked node becomes lost or busy; another attempt is made only without child, unsuspended and wanted |
| Sessions.ChildInterface.HandleChildJoining | src/scheduling/session.hpp:75-99 | the child gets exactly the strict descendants of its index that are not lost; the rest stays and no available node is left waiting |
| Sessions.ChildInterface.FindAndUpdateNode | src/scheduling/session.hpp:172-195 | the node of a rank and index is found if there is one and gets the new epoch and status |
| Sessions.ChildInterface.RemoveNode | src/scheduling/session.hpp:124-131 | exactly the freed node disappears |
| LocalScheduling.LocalScheduler.InitializeScheduling | src/scheduling/local_scheduler.hpp:79-108 | a past update is returned unchanged and requests nothing; otherwise two new sessions get the halves of the nodes, and each child within the known volume is requested exactly once, from the first node of its index that is not lost if there is one |
| LocalScheduling.LocalScheduler.UpdateBalancing | src/scheduling/local_scheduler.hpp:111-128 | each child that is missing, wanted and not yet asked for in this epoch is requested exactly once, from the first node of its index that is not lost if there is one, and no other; suspension begins exactly if a non-root node lies outside the volume; the closing return is sent exactly if no child holds nodes, and holds the nodes of both refreshed sides and this node |
| LocalScheduling.LocalScheduler.BeginSuspension | src/scheduling/local_scheduler.hpp:130-139 | keeps the life cycle; returns the nodes of both sides at once exactly if no child holds nodes |
| LocalScheduling.LocalScheduler.ReturnInactiveJobNodesToParent | src/scheduling/local_scheduler.hpp:237-268 | only when neither child holds nodes; exactly the merged nodes of both sides that are not lost are returned, and this node if its key is free |
| NodeReturns.CollectReturn | src/scheduling/local_scheduler.hpp:242-254 | the merge of both sides and the node itself, without lost nodes |
| NodeReturns.RankReturned | src/scheduling/local_scheduler.hpp:242-254 | every rank of either side that is not lost comes back, at least as new |
| NodeReturns.NothingElseReturned | src/scheduling/local_scheduler.hpp:242-254 | nothing else comes back |
| NodeReturns.OwnReturnedIff | src/scheduling/local_scheduler.hpp:247-254 | the node itself is returned exactly if no lost node with its rank, index and epoch survives the merge |
| NodeReturns.OwnHidden | src/scheduling/local_scheduler.hpp:247-254 | such a lost node does hide it, for every node |
| NodeReturns.OwnReturned | src/scheduling/local_scheduler.hpp:247-254 | it cannot happen if the sides hold no node of this index |
| LocalScheduling.LocalScheduler.HandleInitialize | src/scheduling/local_scheduler.hpp:141-161 | one more initialization; it is bounced without requests, or it ends the suspension and requests the children within the known volume |
| LocalScheduling.LocalScheduler.HandleReturn | src/scheduling/local_scheduler.hpp:150-160 | nodes are merged into the session that knows the child; exactly if no other child holds nodes, a suspension is closed with the return of both sides' nodes, or a resumption completed with new sessions that hold them |
| LocalScheduling.LocalScheduler.HandleRejectReactivation | src/scheduling/local_scheduler.hpp:163-170 | the asked node becomes lost or busy; exactly one new request is made exactly if the scheduler is active, has no such child and wants one: to the next available node of the index while attempts are left, else undirected |
| LocalScheduling.LocalScheduler.HandleChildJoining | src/scheduling/local_scheduler.hpp:172-178 | the child is given exactly the strict descendants of its index that are not lost, with the volume its session knows; the rest stays with the session, which knows its rank and that it holds nodes |
| LocalScheduling.LocalScheduler.BeginResumptionAsRoot | src/scheduling/local_scheduler.hpp:187-193 | exactly if no child holds nodes the root resumes at once, with new sessions that hold the nodes of the old ones and requests for the children within its volume; else it waits and requests nothing |
| LocalScheduling.LocalScheduler.ResumeAsRoot | src/scheduling/local_scheduler.hpp:195-213 | new sessions hold the halves of exactly the merged nodes of the old ones that are not lost; each child within the volume is requested once |
| LocalScheduling.LocalScheduler.AcceptsChild | src/scheduling/local_scheduler.hpp:278-289 | a child is accepted exactly while not suspended and within the volume known to its session |
| LocalScheduling.LocalScheduler.ResetRole | src/scheduling/local_scheduler.hpp:291-296 | a suspended scheduler forgets its epochs |
| NodeExchange.ReturnedOther | src/scheduling/local_scheduler.hpp:242-261 | what a child was given comes back, and nothing else but the child's own node |
| NodeExchange.ExchangeAtOnce | src/scheduling/session.hpp:61-99 | a child that joins and is suspended at once leaves its parent with every node of other ranks it held, with the same index and epoch, except lost ones handed out, and with the child as inactive node |
| NodeVisits.StepConserves | src/scheduling/local_scheduler.hpp:111-185 | every call keeps a rank on one of the sides or with the child that was given it, unless the rank is reported lost or freed, the child is replaced or it does not return it |
| NodeVisits.VisitConserves | src/scheduling/local_scheduler.hpp:111-268 | whatever is called between initialization and closing return, every rank given to a scheduler that is spared by these comes back, with an epoch no smaller than given or set by a request for it |
| NodeVisits.NothingInvented | src/scheduling/local_scheduler.hpp:111-268 | a rank that neither side holds at some point and no child returns later does not come back, so a replaced child takes along what only it holds |
| NodeVisits.VisitReturnsOwn | src/scheduling/local_scheduler.hpp:237-268 | a scheduler that was given strict descendants, and whose children return such, returns itself and nothing outside its subtree |
| NodeVisits.ReturnIsScoped | src/scheduling/local_scheduler.hpp:150-160 | so its parent receives strict descendants of its own |
| NodeTrees.ChildReturns | src/scheduling/local_scheduler.hpp:111-268 | a child that stayed regularly returns every rank it was given that no call in its subtree takes away, so the parent's call spares it |
| NodeTrees.SubtreeConserves | src/scheduling/local_scheduler.hpp:111-268 | for a subtree of any depth, whose nodes serve any calls while their children stay, every rank given to its root that no call in the subtree reports lost, frees or leaves with a replaced child comes back at the closing return, at least as new |
| NodeExchange.ServeCalls | src/scheduling/local_scheduler.hpp:111-268 | serving any sequence of calls up to the closing return is such a visit |
| NodeExchange.Exchange | src/scheduling/session.hpp:61-99 | a child joins, serves any sequence of calls and returns: the parent then holds every node it kept, of other ranks than the child's, every spared rank it handed out, and the child itself |
| JobDatabases.ChangeJob | src/data/job_database.cpp:553-571 | changing the only busy job, or any job while none is busy, keeps the invariant |
| JobDatabases.JobDatabase.SetLoad | src/data/job_database.cpp:553-571 | the load flips between zero and one together with the current job |
| JobDatabases.JobDatabase.Commit | src/data/job_database.cpp:192-205 | the job of the request is the only commitment |
| JobDatabases.JobDatabase.Uncommit | src/data/job_database.cpp:261-268 | no commitment of the job is left; the invariant is kept exactly if the job is unknown or committed, or nothing is committed |
| JobDatabases.JobDatabase.TryAdopt | src/data/job_database.cpp:270-357 | exactly when a request is adopted from idle, by replacing the current job, a non-root leaf, or deferred; in all other cases it is rejected, and nothing changes but for the replaced job |
| JobDatabases.JobDatabase.Execute | src/data/job_database.cpp:81-103 | an idle worker starts or resumes the job |
| JobDatabases.JobDatabase.Reactivate | src/data/job_database.cpp:359-373 | an idle worker resumes a suspended job at its new index |
| JobDatabases.JobDatabase.Suspend | src/data/job_database.cpp:375-384 | the active job is suspended without children and the worker is idle |
| JobDatabases.JobDatabase.Terminate | src/data/job_database.cpp:386-426 | the job is gone, with its load or its commitment |
| JobDatabases.ChooseEvicted | src/data/job_database.cpp:466-491 | the longest active jobs beyond the size of the cache |
| JobDatabases.JobDatabase.ForgetOldJobs | src/data/job_database.cpp:462-498 | exactly the uncommitted inactive jobs of ten seconds or more and the evicted suspended non-root jobs without schedulers are forgotten |
| Workers.Worker.PropagateVolumeUpdate | src/worker.cpp:1155-1206 | work on the job ends exactly if it wants to grow next to a dormant root; otherwise, with reactivation scheduling, exactly the children beyond the volume are given up; exactly the missing children are requested, once each, unless that is left to the scheduler, and children are told the volume with explicit updates |
| Workers.Worker.HandleChild | src/worker.cpp:1168-1204 | one potential child is told the volume, given up, requested or the reason to leave |
| Workers.Worker.UpdateVolume | src/worker.cpp:1063-1146 | the volume is applied; work ends exactly if the job would grow next to a dormant root or its index is outside the volume; a busy job remembers the epoch and keeps exactly the children above; what is sent is stated |
| Workers.Worker.InitiateVolumeUpdate | src/worker.cpp:1036-1061 | at most a volume update of this job |
| Workers.Worker.TryAdoptRequest | src/worker.cpp:622-686 | after an adoption the worker is idle with this request as its only commitment, with the requested index and its epoch; other jobs are unchanged but for a replaced one, which is suspended; otherwise nothing has changed |
| Workers.Worker.HandleAnswerAdoptionOffer | src/worker.cpp:444-502 | an answer that does not match the commitment is ignored; a rejection ends it; an acceptance activates the job exactly if it has a description and its known volume does not end it, and otherwise leaves it committed or ended |
| Workers.Worker.HandleSendJobDescription | src/worker.cpp:825-872 | the next revision is stored and a committed job starts, to be suspended at once exactly if its known volume ends it; anything else is ignored |
| Workers.Worker.InterruptJob | src/worker.cpp:1245-1284 | interruption suspends an active job without children or takes a commitment away, and changes nothing else; termination removes the job |
| Workers.Worker.Serve | src/worker.cpp:425-1284 | after any sequence of messages at most one job is active or committed, the load is 1 exactly with an active current job, the flag is set exactly with a stored commitment |
| Fragmentation.BatchesCover | src/comm/message_queue.hpp:133-134 | every batch starts within the data and the last one ends it |
| Fragmentation.Reassembly | src/comm/message_queue.hpp:207-222 | the batches put together are the data |
| Fragmentation.SendHandle.SendNext | src/comm/message_queue.hpp:187-234 | the whole message, the next batch or a cancellation; every packet fits the receive buffer and a batch is not empty |
| Fragmentation.ReceiveFragment.ReceiveNext | src/comm/message_queue.hpp:65-108 | the batch is put into its slot, the last one completes the fragment, a cancellation marks it |
| Fragmentation.Assemble | src/comm/message_queue.cpp:145-162 | fragments are concatenated in order |
| MessageTransport.StepKeepsInvariant | src/comm/message_queue.cpp:193-270 | every sent batch of an uncancelled message exists exactly once, on its way, in its slot or delivered |
| MessageTransport.DeliveriesAreFaithful | src/comm/message_queue.hpp:65-234 | in every run, what is delivered was posted with that tag and those bytes, and each message is delivered at most once |
| MessageTransport.PacketsFit | src/comm/message_queue.cpp:272-277 | in every run, packets fit the receive buffer and batches are not empty |
| MessageTransport.ReceiverAssertionsHold | src/comm/message_queue.hpp:91-101 | in every run, an arriving batch belongs to its entry, which is incomplete and lacks it |
| MessageTransport.DeliveredIffSent | src/comm/message_queue.cpp:218-247 | once everything sent has arrived, exactly the completely sent messages are delivered |
| MessageTransport.CancelledInTimeIsNeverDelivered | src/comm/message_queue.hpp:201-212 | a batched message cancelled before its last batch was sent is never delivered |
| MessageTransport.CancelStopsDelivery | src/comm/message_queue.hpp:191-212 | a cancelled message is delivered nevertheless if and only if it was not batched or already completely sent when it was cancelled |
| MessageTransport.CancelledButDelivered | src/comm/message_queue.hpp:191-197 | there are such runs: every message of one packet is delivered if it is cancelled after it was sent |
| SendSlots.SlotsOfEveryRun | src/comm/message_queue.cpp:346-425 | the counter is the number of handles under way, at most 16, which form a prefix of the queue; a handle waits only when all slots are taken; messages are first handed over in send order; each is completed once or still queued |
| SendSlots.BatchesOfEveryRun | src/comm/message_queue.cpp:346-425 | in every run each posted message has a handle with its number of batches: a completed one has handed over batches 0, 1, .. in order and each once, a queued one exactly as many as it counts; it is marked exactly if it was cancelled while queued, and then it has handed over a part of its batches and at most one mark |
| SendSlots.ProcessedFate | src/comm/message_queue.cpp:351-409 | a handle whose request is done leaves exactly if everything was sent, and hands over the next batch or the mark otherwise; one whose request is not done stays as it is |
| SendSlots.SentIsRecorded | src/comm/message_queue.hpp:187-234 | what sendNext hands over continues the batches in order, or ends them with the mark |
| SendSlots.PostKeeps | src/comm/message_queue.cpp:58-90 | sending keeps this |
| SendSlots.ProcessedKeeps | src/comm/message_queue.cpp:346-425 | testing and starting handles keeps this |
| SendSlots.TestConserves | src/comm/message_queue.cpp:351-409 | testing loses and duplicates no handle |
| SendSlots.MessageQueue.Send | src/comm/message_queue.cpp:58-90 | a handle is queued and started if a slot is free; a message to oneself takes no slot |
| SendSlots.MessageQueue.CancelSend | src/comm/message_queue.cpp:92-101 | the first handle of the identifier is marked |
| SendSlots.MessageQueue.ProcessSent | src/comm/message_queue.cpp:346-425 | finished handles leave, others send their next batch, then waiting handles are started in order |
| FailedAssumptions.Assumptions.Assume | lib/cadical/src/assume.cpp:8-19 | the literal is assumed once |
| FailedAssumptions.Assumptions.ResetAssumptions | lib/cadical/src/assume.cpp:166-176 | no literal is assumed or failed any more |
| FailedAssumptions.Assumptions.FindFalsified | lib/cadical/src/assume.cpp:62-71 | a falsified assumption of smallest decision level |
| FailedAssumptions.FollowReason | lib/cadical/src/assume.cpp:117-126 | the other literals of a reason are on the work list |
| FailedAssumptions.SearchImplicationGraph | lib/cadical/src/assume.cpp:90-137 | the search ends with an implied clause of negated assumptions: the start and exactly the decisions it depends on through reasons |
| FailedAssumptions.CoreIsExact | lib/cadical/src/assume.cpp:90-137 | the core consists of exactly the decisions that are reached from the start through reasons |
| FailedAssumptions.ClosedIsForced | lib/cadical/src/assume.cpp:90-137 | in a model that satisfies the core, everything reached by reasons is true |
| FailedAssumptions.CoreIsImplied | lib/cadical/src/assume.cpp:90-137 | the collected clause is implied by the formula |
| FailedAssumptions.CoreIsUnsatisfiable | lib/cadical/src/assume.cpp:146-151 | no model of the formula makes all failed assumptions true |
| FailedAssumptions.Assumptions.Failing | lib/cadical/src/assume.cpp:25-161 | the clause is implied, exactly the negations of its literals are marked as failed, and these are a clashing pair of assumptions, or a falsified assumption of the smallest level and exactly the assumptions it depends on through reasons |
| Cubes.NegatedDual | lib/lingeling/treengeling.c:933-944 | an assignment falsifies the leaf clause exactly if it satisfies the cube |
| Cubes.SplitKeepsPartition | lib/lingeling/treengeling.c:1545-1568 | splitting a cube keeps the partition of all assignments |
| Cubes.AllAreSplit | lib/lingeling/treengeling.c:1570-1598 | splitting node by node gives each chosen cube its literal and a counterpart with the negated literal, and leaves the others |
| Cubes.CloseKeepsPartition | lib/lingeling/treengeling.c:883-944 | so does replacing a cube by its leaf clause with the last node moved to its place |
| Cubes.NoCubeLeft | lib/lingeling/treengeling.c:1809-1818 | without open cubes, implied closed clauses make the formula unsatisfiable |
| Cubes.ModelsAreOpen | lib/lingeling/treengeling.c:1793-1819 | every model of the formula satisfies exactly one open cube |
| Treengeling.IntsLen | lib/lingeling/treengeling.c:757-762 | the number of literals before the terminating zero |
| Treengeling.AppendInt | lib/lingeling/treengeling.c:764-777 | a terminated copy with one more literal |
| Treengeling.NegateInPlace | lib/lingeling/treengeling.c:933-944 | all literals are negated in place |
| Treengeling.Tree.constructor | lib/lingeling/treengeling.c:827-860 | one node with the empty cube covers all assignments |
| Treengeling.Tree.NewNode | lib/lingeling/treengeling.c:827-860 | the child's cube is the parent's with the decision |
| Treengeling.Tree.AddInt | lib/lingeling/treengeling.c:779-788 | the node's cube grows by a literal, no other cube changes |
| Treengeling.Tree.SplitNode | lib/lingeling/treengeling.c:1545-1568 | node and child take the lookahead literal and its negation; the partition is kept |
| Treengeling.Tree.Split | lib/lingeling/treengeling.c:1570-1598 | exactly the nodes with a lookahead literal that are not skipped are split, each cube with its literal and a new cube with the negation; the partition is kept |
| Treengeling.Tree.EnqueueNewLeaf | lib/lingeling/treengeling.c:933-982 | the node's array becomes the leaf's, negated; no other cube or leaf changes |
| Treengeling.Tree.DequeueLeaf | lib/lingeling/treengeling.c:968-980 | leaves come out in the order in which they were closed |
| Treengeling.Tree.DeleteNode | lib/lingeling/treengeling.c:883-914 | the last node takes the deleted node's place and position |
| Treengeling.Tree.Flush | lib/lingeling/treengeling.c:1793-1819 | exactly the refuted nodes are closed; the answer is 20 exactly when none is left, and then the formula is unsatisfiable |

## Left out

- Rounding of float and double arithmetic in the volume calculator.
- VolumeCalculation.VolumeCalculator.ComputeFairShares: the assertions on volumes at the bounds hold over the reals by FairShare.VolumeAtLowerBound and FairShare.VolumeAtUpperBound and are not repeated as checks.
- BalancerSafety.NoAbort: takes as hypothesis that job and epoch determine the event among those of all workers. EventSources.NoAbortFromSources derives it from the workers' calls, unless one opens a counter for a job that another worker counts or has counted events of; that only one worker becomes the root of a job is not proved.
- EventSources.AnnouncedJobEnds: that the request for a root is passed on only after the probe was digested, and that it leads to one root, are hypotheses on the run; the way of the request is not modelled.
- PermutationGraph.GetPermutations: random draws are a finite sequence, and the result `None` stands for a search that needs more draws; for one worker and more than one permutation the code's search never ends.
- AdjustablePermutations.AdjustablePermutation.Get: does not model disallowed identity and disallowed permutations, which no caller uses. Neither is createUndirectedExpanderGraph modelled.
- std::sort is modelled by an insertion sort, which gives the same order; std::set by strictly ordered sequences.
- In Balancing.Balancer.HandleReduction the root digests a copy of its diffs; the code digests the diffs themselves, which only the last step, filtering, changes.
- Callbacks that push new events during a digest are later steps of the protocol.
- The byte layout of messages other than event maps, which are values here. The 32 bits of a priority are given by a pair of functions.
- Collective assignment of requests beyond the routing tree and the counting of idle workers: which child gets a request, and requests handed to a local callback.
- IdleCounts.IdleCountIsExact: does not model that a worker lowers a child's status when it forwards a request to it, before the child reports again; every change of a worker's idleness marks its status as changed.
- InactiveJobNodeList::mergeReplacing, which is not called.
- LocalScheduling.LocalScheduler.HandleReturn: returned nodes are matched to a session by rank, as in the code, so a child replaced before its return arrives is not matched, and NodeVisits.NothingInvented shows what is then missing; conservation in a subtree is stated for ranks that no call takes away.
- LocalScheduling.LocalScheduler.HandleInitialize: assumes that initializations other than past ones come only while suspended, as the code asserts.
- NodeExchange.Exchange: the parent's session serves no call of its own between join and return, which NodeTrees.SubtreeConserves covers on values; an initialization that arrives while the child is open can only be a past one, which is sent back without effect; it is not among the calls.
- Wrap-around of tree indices: the bounds of a layer double without limit.
- Jobs of the database are values stored under their identifier, and the current job is an identifier instead of a pointer.
- JobDatabases.JobDatabase.ForgetOldJobs: the ages of jobs and the numbers of their schedulers are parameters; the queue of jobs to destruct and the deletion of schedulers are not modelled.
- Workers.Worker.HandleSendJobDescription: sizes and contents of descriptions are not modelled, only revision numbers.
- The schedulers kept in the job database and the assertion of initScheduler about them, the pending root reactivation request and its assertion, balancer callbacks, deferred and future requests, waiting for reactivation, statistics and time limits.
- SendSlots.MessageQueue.ProcessSent: completion callbacks do not send messages themselves.
- Self messages are only counted; messages of several receivers are independent, so MessageTransport follows one receiver.
- Threads, mutexes, MPI calls, timers, logging, garbage collection, the client, and the remaining parts of CaDiCaL and Lingeling; in Treengeling the results of the node solvers are inputs, and the sorting of nodes, which Cubes.SwapKeepsPartition covers exchange by exchange, is not modelled as a method.
