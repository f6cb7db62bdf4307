# rustfst: verified models of its graph, minimization, distance and property algorithms

rustfst represents weighted finite-state transducers: states `0..n`, an optional start state, an optional final weight
per state, and for each state a list of arcs `(ilabel, olabel, weight, nextstate)`. This project models its hardest
in-memory algorithms over that representation and proves what they promise, for all machines.

- **Minimization.** `Partition` (classes as doubly linked lists over arrays, with a split in progress), Hopcroft
  refinement for cyclic acceptors, Revuz refinement by height for acyclic ones, `merge_states`, `tr_sort`, `tr_unique`
  and the whole of `acceptor_minimize` in place. Classes are compared with the Nerode equivalence, results with every
  other deterministic machine of the same language.
- **Depth-first search.** The explicit-stack search with its three colours, the Tarjan visitor of `connect`, the visitor
  of `top_sort`, and the in-place permutation of `state_sort`.
- **Distances.** Single shortest path, n-best paths, single-source and reverse distances with reused buffers, all-pairs
  closure in any semiring with a star, `reverse`, `prune`, `reweight` and `push_weights`. Tropical weights are exact
  integers with infinity; the state queue may hand out its elements in any order.
- **Property bits.** Each of the 32 bits has a meaning; every mutator of `VectorFst` is paired with its update function,
  and the theorem is about every run of mutations. Sorting, uniqueness, merging, trimming, pruning and reweighting leave
  only true bits.

Every algorithm is a method in the source's own shape, tied to a predicate or function of its input; the lemmas say
what that predicate means. A path is a sequence of edges (source state, arc position); `Total` is its cost times the
final weight, `Language` the set of label sequences of successful paths.

## Model

| member | source | states |
|---|---|---|
| Partitions.Partition.Add | rustfst/src/algorithms/partition.rs:47-62 | a fresh element becomes the head of its class list; all other lists and classes stay |
| Partitions.Partition.MoveElement | rustfst/src/algorithms/partition.rs:64-83 | with no split pending, exactly one element changes class and all lists stay well formed |
| Partitions.Partition.SplitOn | rustfst/src/algorithms/partition.rs:85-118 | the marked set grows by exactly that element; no class id and no class size changes |
| Partitions.Partition.SplitRefine | rustfst/src/algorithms/partition.rs:120-165 | the marked and unmarked parts of one class become two classes, the smaller one under a new id |
| Partitions.Partition.FinalizeSplit | rustfst/src/algorithms/partition.rs:167-177 | every class C becomes its marked and its unmarked part; exactly the new ids are enqueued; an element that changes class lands in one of at most half the size, and no class that keeps an element grows |
| Partitions.Partition.Iter | rustfst/src/algorithms/partition.rs:191-265 | walking a class lists exactly its members, in list order |
| Partitions.BudgetStep | rustfst/src/algorithms/partition.rs:120-177 | a split keeps class size times 2^(moves so far) at most n for every element |
| Hopcroft.PrePartition | rustfst/src/algorithms/minimize.rs:461-522 | states share a class iff they agree on finality and on their label list without adjacent repetitions; all classes are queued |
| Hopcroft.SortedKeysAgree | rustfst/src/algorithms/minimize.rs:492-499 | on label-sorted arcs equivalent states have equal keys |
| Hopcroft.SplitKeepsCover | rustfst/src/algorithms/minimize.rs:524-584 | the worklist invariant survives a split: same-class states that step to different classes have one of these queued or told apart by the current splitter |
| Hopcroft.SplitKeepsKindred | rustfst/src/algorithms/minimize.rs:524-584 | a split by predecessors of a splitter closed under kinship separates no two kindred states: states from which every word leads to equal finality and equal label list |
| Hopcroft.Finalize | rustfst/src/algorithms/minimize.rs:556-574 | `finalize_split` between two labels keeps the whole loop invariant, settles every label passed and enqueues exactly the new ids |
| Hopcroft.RefineBy | rustfst/src/algorithms/minimize.rs:545-579 | the k-way merge over one class ends with the worklist invariant free of that class, nothing marked, and exactly the new ids enqueued |
| Hopcroft.EmptyQueue | rustfst/src/algorithms/minimize.rs:524-584 | with nothing queued, two states share a class iff they are kindred; classes are sound, a congruence, and complete iff the keys agree on equivalent states |
| Hopcroft.MovesPaid | rustfst/src/algorithms/partition.rs:120-177 | no state moves more than log2 n times over the whole run |
| Hopcroft.CyclicMinimize | rustfst/src/algorithms/minimize.rs:524-584 | two states share a class iff every word leads both to states of equal finality and equal label list, whatever the order of arcs; same class implies same right language, and the converse holds iff keys agree; each class id is dequeued exactly once, so at most n times; the classes are a congruence |
| Depths.FstDepth | rustfst/src/algorithms/minimize.rs:274-308 | the recursion leaves every examined state with its height and leaves earlier heights alone |
| Depths.DepthFromStart | rustfst/src/algorithms/minimize.rs:324-343 | every height is the length of a longest path: each arc goes strictly down and some arc goes down by one |
| Depths.LongestPath | rustfst/src/algorithms/minimize.rs:274-308 | the height of a state is reached by a path of that length |
| Depths.NerodeHeight | rustfst/src/algorithms/minimize.rs:345-380 | equivalent states have equal heights, so refining level by level loses nothing |
| Revuz.CompareExact | rustfst/src/algorithms/minimize.rs:394-456 | no two states are each less than the other, and ties are exactly equality of final weight and of the lists of labels and target classes |
| Revuz.CompareOrder | rustfst/src/algorithms/minimize.rs:441-456 | the comparison is antisymmetric and transitive with ties as an equivalence, as a search tree needs |
| Revuz.KeyNerode | rustfst/src/algorithms/minimize.rs:345-456 | on a level whose lower levels are settled, equal keys mean equal right languages, both ways |
| Revuz.AcyclicMinimize | rustfst/src/algorithms/minimize.rs:310-385 | two states share a class iff they have the same right language |
| Merges.MergeStates | rustfst/src/algorithms/minimize.rs:214-267 | every class collapses into its first state, with all arcs redirected, and the rest is trimmed away; the result is marked as trim, and true bits stay true |
| Languages.MergedLanguage | rustfst/src/algorithms/minimize.rs:214-267 | collapsing sound classes keeps the language |
| Languages.TrimLanguage | rustfst/src/algorithms/connect.rs:51-77 | trimming keeps the language |
| Minimals.QuotientReduced | rustfst/src/algorithms/minimize.rs:214-267 | if equivalent states were in one class, no two states of the result are equivalent |
| Minimals.QuotientImage | rustfst/src/algorithms/minimize.rs:214-267 | every state has an image; images agree iff classes do; the arcs of the result are exactly the redirected arcs |
| Minimals.OneArcExactly | rustfst/src/algorithms/tr_unique.rs:8-45 | after merging by a congruence, a label is on one arc per state iff merged states put equal weights on equal labels |
| TrSorts.UniqueTrsExact | rustfst/src/fst_impls/vector_fst/mutable_fst.rs:358-376 | no arc is lost or invented, and labels end up distinct iff no label was on two different arcs |
| TrSorts.UniqueTrsDistinct | rustfst/src/fst_impls/vector_fst/mutable_fst.rs:358-376 | no arc is left twice iff no two equal arcs of the state have between them one that differs in weight alone |
| TrSorts.RepetitionStays | rustfst/src/algorithms/tr_unique.rs:36-45 | three arcs, the first and last equal and the middle one of another weight, all stay |
| Tidying.TrSort | rustfst/src/algorithms/tr_sort.rs:51-62 | every state ends up with the same arcs in label order, and true bits stay true |
| Tidying.SortKeepsBits | rustfst/src/algorithms/tr_sort.rs:21-29 | the bits computed by the sort are true of the sorted machine |
| Tidying.TrUnique | rustfst/src/algorithms/tr_unique.rs:38-61 | every state ends up with the same set of arcs, sorted, with adjacent repetitions dropped; true bits stay true and the marks of a trim machine stay |
| Tidying.UniqueKeepsBits | rustfst/src/algorithms/tr_unique.rs:46-60 | the bits computed after removing repetitions are true, the null bits being added to the empty machine alone; accessibility is not forgotten |
| SimilarMachines.SimilarFacts | rustfst/src/algorithms/tr_unique.rs:46-56 | two machines that have each other's states and arcs, under any numbering, order and repetition, agree on what the bits say of labels, weights, cycles and reachability |
| AcceptorMinimize.AcceptorMinimize | rustfst/src/algorithms/minimize.rs:182-212 | refused iff not an unweighted acceptor; otherwise same language, trim, reduced iff the acyclic branch ran or keys agree, deterministic iff merged states put equal weights on equal labels, where the merged states are the equivalent ones on the acyclic branch and the kindred ones on the other; sorted input always gets keys that agree; every bit left is true of the result, and the result is marked as trim, as the connect after decoding relies on |
| AcceptorMinimize.UnitArcsDeterministic | rustfst/src/algorithms/minimize.rs:182-212 | arcs that all weigh one give a deterministic result, on either branch |
| AcceptorMinimize.MinimizedIsSmallest | rustfst/src/algorithms/minimize.rs:182-212 | no deterministic acceptor of the language has fewer states than the result |
| AcceptorMinimize.CyclicNotReduced | rustfst/src/algorithms/minimize.rs:492-499 | a cyclic trim machine with unsorted arcs whose result still has two equivalent states |
| AcceptorMinimize.AcyclicNotDeterministic | rustfst/src/algorithms/minimize.rs:182-212 | an acyclic machine with arcs of weight zero whose result is not deterministic |
| WordWeights.MinimizedWeights | rustfst/src/algorithms/minimize.rs:182-212 | every successful path of the input is in the result, arc by arc; no other is, iff merged states put equal weights on equal labels, and then every word keeps its weight |
| WordWeights.ClashingWordWeight | rustfst/src/algorithms/minimize.rs:182-212 | a machine in which the weight of a word goes from infinity to a finite one |
| Counts.FewestStates | rustfst/src/algorithms/minimize.rs:182-212 | a trim, reduced, deterministic machine has at most as many states as any other of its language |
| Tarjan.RootGroupExact | rustfst/src/algorithms/connect.rs:157-198 | the states popped at a root are co-accessible exactly when one of them was noted to be |
| Tarjan.DiscoverInv | rustfst/src/algorithms/connect.rs:114-123 | opening a state keeps the ten parts of the Tarjan invariant |
| Tarjan.RootInv | rustfst/src/algorithms/connect.rs:157-198 | popping a component keeps them |
| Tarjan.InnerInv | rustfst/src/algorithms/connect.rs:157-198 | so does finishing a state that is no root |
| Connects.DfsVisit | rustfst/src/algorithms/dfs_visit.rs:97-187 | `access` is true for exactly the states reachable from the start state, `coaccess` for exactly those that reach a final state, also inside cycles |
| Trims.Connect | rustfst/src/algorithms/connect.rs:51-77 | the useless states are gone, in order; nothing is touched when both bits were set; the exact bits afterwards |
| Trims.SuccessSurvives | rustfst/src/algorithms/connect.rs:51-77 | every successful path survives with its labels, weights and final weight |
| Trims.SuccessComesFrom | rustfst/src/algorithms/connect.rs:51-77 | no successful path is new |
| Trims.MapPathInjective | rustfst/src/algorithms/connect.rs:51-77 | different paths survive as different paths |
| Trims.TrimmedIsTrim | rustfst/src/algorithms/connect.rs:51-77 | every state left is reachable and reaches a final state |
| VectorFsts.VectorFst.DelStates | rustfst/src/fst_impls/vector_fst/mutable_fst.rs:132-189 | the swap-and-renumber loop deletes exactly the named states and the arcs to them, keeping order |
| TopSorts.TopOrder | rustfst/src/algorithms/top_sort.rs:12-69 | a back arc is reported iff the machine has a cycle anywhere; otherwise every arc ascends in the order found |
| TopSorts.TopSort | rustfst/src/algorithms/top_sort.rs:76-94 | acyclic machines are renamed so that every arc goes to a larger id; cyclic ones keep states and arcs; states without a start state are refused; the exact bits, and true bits stay true on every outcome |
| TopSorts.SortedBits | rustfst/src/algorithms/top_sort.rs:83-87 | the bits added to a sorted machine are true |
| TopSorts.CyclicBits | rustfst/src/algorithms/top_sort.rs:88-91 | the bits added to a cyclic machine are true |
| StateSorts.StateSort | rustfst/src/algorithms/state_sort.rs:16-78 | for any permutation each state ends at its new id with targets mapped; a wrong length is refused; true bits stay true on every outcome |
| StateSorts.WalkAll | rustfst/src/algorithms/state_sort.rs:33-73 | following cycles with two buffers ends with every state at its new id and its targets mapped |
| Renamings.RenamedSuccess | rustfst/src/algorithms/state_sort.rs:16-78 | a renamed machine has every successful path, with its labels and weights |
| Renamings.SuccessRenamed | rustfst/src/algorithms/state_sort.rs:16-78 | and no other |
| Renamings.RenamedKeeps | rustfst/src/fst_properties/properties.rs:319-348 | the bits that `state_sort` lets through are true of the renamed machine |
| Relaxations.EstimatesExact | rustfst/src/algorithms/shortest_path.rs:204-237 | estimates without a pending state are the exact distances |
| ShortestPaths.SingleShortestPath | rustfst/src/algorithms/shortest_path.rs:173-239 | for any queue order it ends, with exact distances and parent pointers that lead back without a cycle |
| ShortestPaths.Backtrace | rustfst/src/algorithms/shortest_path.rs:241-282 | the output is the chain of one real path whose cost is the distance found |
| ShortestPaths.ShortestPath | rustfst/src/algorithms/shortest_path.rs:107-131 | the chain of a cheapest successful path, empty iff none has finite weight |
| Heaps.Heap.Push | rustfst/src/algorithms/shortest_path.rs:358-369 | the heap order is kept and exactly one element is added |
| Heaps.Heap.Pop | rustfst/src/algorithms/shortest_path.rs:371-399 | takes out one element that waits behind none, and keeps the order |
| NBests.AllSettled | rustfst/src/algorithms/shortest_path.rs:409-518 | despite the cap on visits per state, every completion of every partial path is emitted or beaten |
| NShortestPaths.LimitNever | rustfst/src/algorithms/shortest_path.rs:445-467 | the weight limit never cuts anything |
| NShortestPaths.Search | rustfst/src/algorithms/shortest_path.rs:432-510 | the search ends, also on cyclic input, with the n lightest paths of the reversed machine emitted in order |
| BestPaths.NShortestPath | rustfst/src/algorithms/shortest_path.rs:409-518 | the empty machine when nothing was asked for or no finite path exists, otherwise the trimmed tree of emitted paths |
| BestPaths.ShortestPaths | rustfst/src/algorithms/shortest_path.rs:133-171 | the successful paths of the returned machine are exactly the best routes: distinct, lightest first in the order of the start arcs, every other successful route no lighter than the last of n; the machine is trim |
| BestPaths.BestCount | rustfst/src/algorithms/shortest_path.rs:409-518 | as many routes come out as there are successful ones, up to n |
| BestPaths.InfiniteEmitted | rustfst/src/algorithms/shortest_path.rs:445-467 | a route of infinite weight is emitted iff one exists and fewer than n routes are finite |
| BestPaths.LoopEmitsInfinite | rustfst/src/algorithms/shortest_path.rs:445-467 | a machine with one finite route from which two are emitted |
| ShortestDistances.ShortestDistanceState.ShortestDistanceInPlace | rustfst/src/algorithms/shortest_distance.rs:165-255 | for any queue order, and over any stale buffers, every state seen in this pass has its exact distance |
| ShortestDistances.ShortestDistance | rustfst/src/algorithms/shortest_distance.rs:334-356 | the exact distance from the start state, or with `reverse` the exact distance to a final state, in at most one entry per state |
| Reverses.Reverse | rustfst/src/algorithms/reverse.rs:33-87 | each state's arcs are the flipped arcs that enter it, in the order of the buckets; the new start state has an arc to each final state |
| Reverses.CompletionReversed | rustfst/src/algorithms/reverse.rs:33-87 | a completion becomes a path of equal cost from the new start state |
| Reverses.CompletionUnreversed | rustfst/src/algorithms/reverse.rs:33-87 | and every such path comes from one |
| Closures.AllPairsShortestDistance | rustfst/src/algorithms/all_pairs_shortest_distance.rs:41-81 | the in-place triple loop computes the same matrix as the update by whole rounds |
| Closures.ClosureEquation | rustfst/src/algorithms/all_pairs_shortest_distance.rs:41-81 | in any semiring whose star is lawful on the diagonal entries met, D = I + A D |
| TropicalClosures.TropicalClosureExact | rustfst/src/algorithms/all_pairs_shortest_distance.rs:41-81 | over tropical weights D is the distance matrix iff every state has a cycle of finite cost through smaller states only |
| TropicalClosures.TropicalAllPairs | rustfst/src/algorithms/all_pairs_shortest_distance.rs:41-81 | every cell of the array returned: minus infinity iff a path of finite cost between the two states, the empty one included, visits a state without such a cycle; otherwise the distance |
| TropicalClosures.TropicalEntries | rustfst/src/algorithms/all_pairs_shortest_distance.rs:41-81 | the same for every cell of the rounds |
| TropicalClosures.TropicalEquation | rustfst/src/algorithms/all_pairs_shortest_distance.rs:41-81 | with such a cycle at every state D = I + A D |
| TropicalClosures.LoneFails | rustfst/src/semirings/tropical_weight.rs:117-125 | one state without arcs: its distance to itself is one, and comes out as minus infinity |
| Prunes.Prune | rustfst/src/algorithms/prune.rs:37-96 | what is left is the input without the arcs, final weights and states that no successful path within best times threshold needs, in order; each such path survives in a place of its own, an arc is found again iff one goes through it, nothing is new; true bits stay true |
| Prunes.ArcFoundExactly | rustfst/src/algorithms/prune.rs:71-94 | an arc is found again iff a successful path within the limit goes through it |
| Prunes.LoopPrunes | rustfst/src/algorithms/prune.rs:71-94 | cutting by distances and then trimming gives the machine cut by paths, state for state and arc for arc |
| Prunes.WithinSurvives | rustfst/src/algorithms/prune.rs:37-96 | where a path within the limit is found again |
| Prunes.SurvivorsDiffer | rustfst/src/algorithms/prune.rs:37-96 | different paths are found in different places |
| Prunes.BestKept | rustfst/src/algorithms/prune.rs:37-96 | the best weight is unchanged iff the threshold is not negative |
| Prunes.NothingWithin | rustfst/src/algorithms/prune.rs:37-96 | a negative threshold leaves no successful path at all |
| Reweights.Telescopes | rustfst/src/algorithms/reweight.rs:27-154 | for any potentials, along a path the potentials cancel but for those at its ends and where it leaves or enters the states that have one |
| Reweights.ReweightedPaths | rustfst/src/algorithms/reweight.rs:27-154 | potentials finite along every path of finite weight leave the total of every successful path as it was, also when a new start state is added, and no path is new |
| Reweights.ReweightedTotal | rustfst/src/algorithms/reweight.rs:27-154 | for any potentials, what a successful path weighs afterwards, also one that leaves the states with a potential |
| Reweights.ReweightedLaws | rustfst/src/algorithms/reweight.rs:27-154 | for any potentials, every arc and final weight: an arc without potential at either end keeps its weight, apart from the factor at the start state; a final weight without potential is kept towards the initial state and becomes zero towards the final ones |
| Reweights.Reweight | rustfst/src/algorithms/reweight.rs:27-154 | the loops in place have exactly that effect on every path, arc and final weight, and leave no false property bit |
| Pushes.ComputeTotalWeight | rustfst/src/algorithms/push.rs:122-142 | the sum is the weight of a best successful path |
| Pushes.DividedTotal | rustfst/src/algorithms/push.rs:144-176 | removing a weight at the final states divides the total of every successful path by it |
| Pushes.RemovedLaw | rustfst/src/algorithms/push.rs:144-176 | removing a weight divides exactly the arcs and the final weight of the start state, or all final weights, by it |
| Pushes.PushWeights | rustfst/src/algorithms/push.rs:90-120 | every path is multiplied by one factor, the inverse of the best weight if it is to be removed; pushed to the start, what leaves each state sums to one; pushed to the end, what enters does; every arc and final weight, dead ends included |
| PropertyBits.NoContradiction | rustfst/src/fst_properties/properties.rs:6-106 | a bit and its opposite are never both set |
| PropertyBits.CycleBits | rustfst/src/fst_properties/properties.rs:6-106 | a topological order allows no cycle bit, and no cycle no initial one |
| PropertyBits.SetStartKeeps | rustfst/src/fst_properties/mutate_properties.rs:7-13 | setting the start state leaves only true bits |
| PropertyBits.SetFinalKeeps | rustfst/src/fst_properties/mutate_properties.rs:15-37 | so does setting or deleting a final weight |
| PropertyBits.AddStateKeeps | rustfst/src/fst_properties/mutate_properties.rs:39-41 | so does a new state |
| PropertyBits.AddTrKeeps | rustfst/src/fst_properties/mutate_properties.rs:43-100 | so does a new arc: `ACCESSIBLE` and `COACCESSIBLE` survive, `TOP_SORTED` gives `ACYCLIC` |
| PropertyBits.DelStatesKeeps | rustfst/src/fst_properties/mutate_properties.rs:102-104 | so does deleting states |
| PropertyBits.EmptyTrue | rustfst/src/fst_properties/mutate_properties.rs:106-108 | the bits of the empty machine are true |
| PropertyBits.DeleteTrsKeeps | rustfst/src/fst_properties/mutate_properties.rs:110-112 | so does deleting the arcs of a state |
| PropertyBits.SetLabelsKeeps | rustfst/src/trs_iter_mut.rs:241-277 | so does relabelling an arc |
| PropertyBits.SetWeightKeeps | rustfst/src/trs_iter_mut.rs:279-291 | so does reweighting one |
| PropertyBits.SetNextstateKeeps | rustfst/src/trs_iter_mut.rs:222-230 | so does redirecting one |
| PropertyBits.SetTrKeeps | rustfst/src/trs_iter_mut.rs:307-322 | so does overwriting one |
| PropertyBits.SetTrsExact | rustfst/src/fst_impls/vector_fst/mutable_fst.rs:255-281 | replacing all arcs of a state leaves only true bits iff each bit it fails to drop is still true |
| PropertyBits.SetTrsFresh | rustfst/src/fst_impls/vector_fst/mutable_fst.rs:255-281 | on a state that has no arcs, replacing them leaves only true bits |
| StaleBits.ReachAround | rustfst/src/fst_impls/vector_fst/mutable_fst.rs:255-281 | what is reachable after the replacement, from reachability by the other states' arcs and where the new arcs lead |
| StaleBits.SetTrsWitnessed | rustfst/src/fst_impls/vector_fst/mutable_fst.rs:255-281 | the bits stay true iff each one not dropped has, bit by bit, a witness among the other states' arcs or the new ones |
| PropertyBits.CycleGoesStale | rustfst/src/fst_impls/vector_fst/mutable_fst.rs:255-281 | a machine whose only cycle goes while its bit `CYCLIC` stays |
| PropertyBits.Perform | rustfst/src/fst_impls/vector_fst/mutable_fst.rs:24-345 | each mutator of the class is one step of the run model |
| PropertyBits.StepKeeps | rustfst/src/fst_properties/mutate_properties.rs:7-112 | after one mutation of a machine with true bits the bits are true iff nothing went stale |
| PropertyBits.RunsKeepBitsTrue | rustfst/src/fst_properties/mutate_properties.rs:7-112 | along any run from a new machine all set bits are true at all moments, iff no replacement of arcs on the way left a stale bit |
| KeptBits.StepRetains | rustfst/src/fst_properties/mutate_properties.rs:7-112 | which bits each mutation may take away; all others stay |
| KeptBits.StateSortRetains | rustfst/src/fst_properties/properties.rs:319-348 | sorting states forgets the topological order and the string bits, and nothing else |
| KeptBits.SortRetains | rustfst/src/algorithms/tr_sort.rs:21-29 | sorting arcs forgets at most what was known of label order |
| KeptBits.UniqueRetains | rustfst/src/algorithms/tr_unique.rs:46-56 | which bits removing repetitions forgets |
| KeptBits.ReweightRetains | rustfst/src/fst_properties/mutate_properties.rs:640-644 | which bits reweighting forgets |
| PropertyBits.TrimBitsDischarged | rustfst/src/algorithms/connect.rs:52-63 | true bits are all `connect` needs to trust them |
| PropertyBits.ConnectByBits | rustfst/src/algorithms/connect.rs:51-77 | with true bits the early return and the full search give the same machine, and the bits stay true |

## Findings

Where a property expected of the code fails, the code is kept as it is, a failing input is given, and the exact
condition is proved.

- **The cyclic branch need not minimize.** `pre_partition` keys a state on its labels in arc order and drops only
  adjacent repetitions, and only the acyclic branch sorts arcs first (`minimize.rs:201`, `minimize.rs:492-499`).
  Equivalent states with differently ordered arcs are never merged. Classes are exactly the Nerode classes iff equivalent
  states have equal keys (`Hopcroft.CyclicMinimize`); sorted arcs suffice (`Hopcroft.SortedKeysAgree`);
  `AcceptorMinimize.CyclicNotReduced` is a machine where they do not.
- **Minimization can lose determinism.** The bit `UNWEIGHTED` admits arcs of weight zero, and `tr_unique` keeps two arcs
  that differ only in weight. The result is deterministic iff states that became one put equal weights on equal labels
  (`AcceptorMinimize.AcceptorMinimize`); arcs that all weigh one suffice (`UnitArcsDeterministic`);
  `AcyclicNotDeterministic` is an acyclic machine that fails. On the same condition the result has no successful path
  that was not there before, and every word keeps its weight (`WordWeights.MinimizedWeights`); on the failing machine the
  word 2 1 goes from infinite weight to weight one (`WordWeights.ClashingWordWeight`).
- **`tr_unique` can keep two instances of an arc.** Its documentation promises one. It sorts by labels and target,
  ignoring weights, and drops only adjacent equal arcs, so equal arcs with one of another weight between them all stay
  (`TrSorts.RepetitionStays`; three merged states with weights one, zero, one produce them). No arc is left twice iff no
  two equal arcs are so parted (`TrSorts.UniqueTrsDistinct`).
- **The tropical star is wrong at infinity.** `TropicalWeight::closure` answers minus infinity for infinity
  (`tropical_weight.rs:117-125`), so the all-pairs matrix is right iff every state has a cycle of finite cost through
  smaller states (`TropicalClosures.TropicalClosureExact`). Otherwise a cell is minus infinity exactly when a path of
  finite cost between its two states visits a state without such a cycle, and all other cells are distances
  (`TropicalClosures.TropicalEntries`); `LoneFails` is the smallest failure.
- **The n-best search emits paths of infinite weight.** Its limit is the semiring zero times a weight, which nothing
  exceeds. Routes of infinite weight fill the places that finite ones leave free: one is emitted iff one exists and fewer
  than n routes are finite (`BestPaths.InfiniteEmitted`, input `LOOP`). Without any finite route the output is empty.
- **Reweighting keeps path weights only where potentials are finite.** A path that leaves or enters the states that have
  one gains or loses what the potentials differ by there, and towards the final states a final weight without potential
  becomes infinite (`Reweights.ReweightedTotal`); potentials finite along every path of finite weight change no total
  (`Reweights.ReweightedPaths`).
- **A negative threshold prunes everything.** The best weight survives iff the threshold is not negative
  (`Prunes.BestKept`, `Prunes.NothingWithin`).
- **One mutator leaves false bits.** `set_trs_unchecked` starts from the bits of the arcs it overwrites, and keeps all
  bits when the new list is empty. The bits are true afterwards iff each stale one has a witness among the arcs of the
  other states and the new ones (`StaleBits.SetTrsWitnessed`, input `ONE_LOOP`). On a state without arcs they always are
  (`PropertyBits.SetTrsFresh`), and so it is at each of its callers: `reverse.rs:75` and `lazy_fst.rs:336` fill new
  states, `rm_epsilon_static.rs:149-150` pops the arcs first. Its comment says that properties are not modified; they are.
- **`top_sort` refuses machines with states but no start state**, because the order found is empty (`TopSorts.TopSort`).

## Left out

- Partitions.Partition.MoveElement: does not say which list position the element takes; `merge_states` keeps the first state of each list, and is proved for whichever state that is.
- AcceptorMinimize.AcceptorMinimize: does not model nondeterministic input, a stored final weight of zero, or more states than the partition can number, because Hopcroft's choice of the smaller half needs determinism and the source's two tests for finality differ on stored zeros; the three property bits it computes are an input, only required to be true and known.
- NShortestPaths.Search: does not model rounding in the comparison of weights, because weights are exact.
- ShortestDistances.ShortestDistance: does not model negative weights, because relaxation need not end on them.
- Pushes.PushWeights: does not decide whether a cycle passes through the start state; that test is an input, because it belongs to the component visitor, which is not part of this model.
- Queue disciplines: the queue is a multiset that hands out any element, which covers all of them.
- `del_trs_id_sorted_unchecked`, `sum_trs_unchecked` and the bulk forms `add_states`, `pop_trs`, `take_final_weight`, which repeat a single mutation.
- The bits left by reversal, inversion, projection, closure, composition and the other operations on whole machines that are not among sorting, uniqueness, trimming and reweighting.
- Epsilon counters and symbol tables: bookkeeping beside the arcs.
- Floating point, `delta`, quantization, the log and probability semirings, path weights with `unique` set.
- The weighted and transducer branches of `minimize`, Gallic weights, encoding, label pushing, determinization, composition.
- Automatic queue selection, filters on arcs, and the option to stop at the first path.
- Reading, writing, drawing, bindings and the command line.
