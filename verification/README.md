# Anakin: models of its algorithmic core, with proofs

Dafny models of six parts of the Anakin inference framework, each proved against what the code is for:

1. **Box suppression** (`saber/utils.h`): `nms_lm` and `soft_nms_lm`, which sort an array of boxes in place, scan it in
   nested loops, and rewrite scores and corners while they scan.
2. **`Graph::Freeze`, and the way to the virtual graph and back** (`framework/graph/graph.cpp`): ops with named variables
   become a graph with Input, Output and Split ops and arcs; `get_vgraph` and `restore_from_vgraph` carry it over and back.
3. **The guard table** (`framework/graph/graph_global_mem.h`): "already used" flags under memory addresses that must follow
   a block when a functor moves it.
4. **`PGlue`** (`saber/utils.h`): one buffer kept on host and device, with ownership flags.
5. **`Tokenizer`** (`benchmark/RNN/Tokenizer.py`): incremental word counts and a frequency-ranked index.
6. **Splitting and batching** (`examples/anakin/anakin_helper.h`, `examples/anakin/map_rnn.cpp`).

## How it is laid out

| files | content |
|---|---|
| `StableSorting` | the stable descending sort of `std::stable_sort` and Python's `list.sort(reverse=True)`, specified by rank |
| `Boxes`, `BoxCells` | box geometry and votes; the overlap ratio as a count of grid cells |
| `HardNms`, `HardNmsLaws`, `HardNmsMeaning` | the in-place method, its laws, and its outcome told from the sorted boxes and the mask alone |
| `SoftNms`, `SoftNmsLaws`, `SoftNmsMeaning` | the same for soft suppression |
| `GraphNames`, `Nets`, `FreezeResult`, `FreezeLinear`, `FreezeMeaning`, `FreezeArcs` | names made up by Freeze, the frozen net as a value, its names and places written out, its linear form, its meaning, its arcs |
| `GraphBase`, `FreezeScans`, `FreezePlan`, `Freezing` | the graph class with its arc lists and breadth-first scan, the loops of Freeze, class `Graph` |
| `VirtualGraph`, `VirtualGraphBack` | `get_vgraph`, the scale and layout maps, `restore_from_vgraph`, the round trip |
| `GuardTable`, `Glue` | the two state machines and their classes |
| `Splitting`, `Batching`, `BatchMeaning` | string splitting, batch reading, what a line of the file leaves in a batch |
| `Tokenizing`, `TokenMeaning` | the tokenizer; counts, order and sequences told from the words in reading order |

Code that updates state is modelled by methods over arrays, local maps and class fields. Each is proved equal to a
function of its input or of the old state (`Mask`, `FinalBoxes`, `After`, `Frozen`, `Pieces`, `Cut`, `Step`), and the laws
are lemmas about these functions. Unordered maps are scanned in an arbitrary order, so every claim about Freeze and about
`set(seq)` holds for every iteration order. `Dtype` and `float` are reals, `exp(-o*o/iou_std)` is a function parameter
with values in (0, 1], addresses are naturals with 0 for null, `atof` and `str.lower` are function parameters.

Where the code does not do what it seems to promise, the exact condition is proved:

- `soft_nms_lm` without voting marks exactly the picked boxes, for every geometry and `iou_std`, if and only if all
  considered boxes are picked, or none, or entry `top_n_real - 1` of the sorted scores is not negative
  (`MarksPicksIffSafe`). The marked boxes are also in pick order if and only if entry `top_n_real - 1` is not negative,
  or entry `consider_size - 2` when all are picked, or there is no such entry (`PicksInOrderIffSafe`). With voting the
  checks on scores ensure both.
- A negative `top_N` makes `soft_nms_lm` throw for a non-empty input, while `nms_lm` then keeps nothing.
- Freeze gives every variable one producer and one consumer, and calls `add_in_arc` and `add_out_arc` on the same pairs
  equally often, if and only if no op lists an input variable twice (`LinearIffNoRepeats`, `CallsMatchIffNoRepeats`).
  The arcs that result agree at both ends in any case (`ArcsAgree`).
- `add_in_arc` keeps one arc per pair of ops: an op has an in-arc per input if and only if its inputs come from different
  ops (`InArcPerInput`).
- Scales and layouts survive the round trip through the virtual graph if and only if edges of the same name agree on
  them; names are `bottom_top` and can collide (`RoundTrip`, `NamesCollide`, `NamesApart`).
- `get_vgraph` fails a CHECK if and only if no vertex starts the scan or an arc list of a reachable vertex leads to an
  unreachable one (`GetVGraph`); where every arc is listed at both ends this means an arc from an unreachable vertex
  (`ContainedIffClosed`).
- `apply` on a tensor without data calls its functor twice while the flag of the null address is set, and once otherwise
  (`ApplyNull`).
- A `PGlue` made from two tensors reads alike on both sides if and only if the tensors were equal (`PairReads`).
- Joining what `string_split` returns gives the input back if and only if the delimiter is one character or does not
  occur (`SplitThenJoin`).

Code and documentation disagree in `Tokenizer.py`; the code is followed. The documentation says that only known words are
taken into account: in fact an unknown word raises a TypeError when `num_words` is set and leaves a None otherwise
(`UnknownWords`; Python 3 comparison). It says that the `num_words` most common words are kept: the code keeps
`num_words - 1`, and with an `oov_token` the replacement entry is the index of the word ranked `num_words`, not the index
of the token (`RankNumWordsIsDropped`).

## Model

| member | source | states |
|---|---|---|
| StableSorting.SortIsDescending | saber/utils.h:368 | the sort is a descending permutation of its input |
| StableSorting.SortPlacesByRank | saber/utils.h:368 | every element lands at the number of elements that beat it: larger score, or same score and earlier place |
| StableSorting.RankIsOnto | saber/utils.h:368 | every place of the result is some element's rank |
| StableSorting.StableSortIsUnique | saber/utils.h:280 | any sequence that puts each element at its rank is the stable sort |
| StableSorting.RankOrder | benchmark/RNN/Tokenizer.py:225 | ranks are ordered exactly as the elements beat each other |
| Boxes.RatioInUnit | saber/utils.h:411-417 | whenever w > 0 and h > 0 the divisor is positive and the overlap ratio lies in (0, 1] |
| BoxCells.IouTimesUnion | saber/utils.h:403-417 | written out on the corners, with and without the added one: two boxes meet exactly when w > 0 and h > 0, and then the ratio times the union is the intersection |
| BoxCells.IouCountsCells | saber/utils.h:403-417 | on a grid two boxes meet exactly when they share a cell, and the ratio is the number of shared cells over the number of cells in either, in both size conventions |
| Boxes.OverlapWithinBoth | saber/utils.h:407-416 | the intersection is at most each of the two areas |
| Boxes.MeasureOverlap | saber/utils.h:407-417 | the overlap computed from stored areas is the IoU of the two boxes |
| Boxes.GeometryIgnoresScore | saber/utils.h:407-417 | areas, intersection and IoU depend on the corners alone |
| Boxes.VotedStaysBetween | saber/utils.h:435-440 | a voted box lies between bounds that hold for all contributions, as a weighted mean |
| Boxes.VotedIsProper | saber/utils.h:435-440 | weighted sums in order give a box with x1 <= x2 and y1 <= y2 |
| Boxes.VotedIsMean | saber/utils.h:435-440 | above weight 0.0001 each rewritten corner times the weight is the corner sum; otherwise, and without voting, the box stays; score and other members always stay |
| HardNms.Nms | saber/utils.h:362-443 | sorts by descending score and rewrites the array in place, for the first max_candidate_N boxes if that is positive; fails exactly when CheckFails; else the mask is Mask and the boxes are FinalBoxes, whose meaning HardNmsMeaning gives |
| HardNms.Scan | saber/utils.h:383-441 | the scan over the sorted boxes, with skip flags and stored areas, yields the greedy mask although it rewrites what it scans |
| HardNms.Round | saber/utils.h:387-440 | one kept box: what it skips, sums and votes |
| HardNms.Visit | saber/utils.h:402-434 | one suppressed or voting candidate |
| HardNms.SortPrefix | saber/utils.h:354-355 | the first n entries are replaced by their stable sort, the rest stay |
| HardNms.SkippedMeaning | saber/utils.h:402-419 | a box is skipped exactly when a kept box before it suppresses it |
| HardNms.RestUntouched | saber/utils.h:383 | once top_N boxes are kept nothing more is kept, voted or checked |
| HardNmsMeaning.MaskMeaning | saber/utils.h:366-423 | a mask is the one returned if and only if it marks a box exactly when it is among the first max_candidate_N (if positive), fewer than top_N are marked before it, and no marked box before it has IoU above overlap with it |
| HardNmsMeaning.FailsExactly | saber/utils.h:394-430 | a CHECK_GE fails if and only if voting is on and, for some marked box, that box or a later box in play with IoU above vote_iou has a negative score |
| HardNmsMeaning.CornersAreMeans | saber/utils.h:389-440 | with voting and weight above 0.0001 each corner of a marked box times the sum of scores is the sum of corner times score over the box and the later boxes in play with IoU above vote_iou; otherwise the corners stay |
| HardNmsMeaning.ScoresAreSums | saber/utils.h:418-422 | with addScore a marked box gains the scores of the later boxes in play with IoU above overlap; other scores, unmarked boxes and other members stay |
| HardNmsLaws.GreedyExactly | saber/utils.h:383-423 | the mask is the one and only mask that follows the greedy rule |
| HardNmsLaws.KeptBoxesApart | saber/utils.h:418-419 | two kept boxes have IoU at most overlap on their corners before voting |
| HardNmsLaws.DroppedForAReason | saber/utils.h:383-423 | a considered box is not kept exactly when an earlier kept box overlaps it too much or top_N boxes were kept before it |
| HardNmsLaws.KeptCountBounded | saber/utils.h:383 | at most min(max(top_N, 0), consider_size) boxes are kept |
| HardNmsLaws.TopNKeepsPrefix | saber/utils.h:383-388 | a smaller top_N, negative ones included, keeps exactly a prefix of what a larger one keeps |
| HardNmsLaws.MaskIgnoresRewrites | saber/utils.h:383-441 | the mask does not depend on voting, vote_iou or addScore |
| HardNmsLaws.ScoresIgnoreVoting | saber/utils.h:420-440 | final scores do not depend on voting |
| HardNmsLaws.CornersIgnoreSumming | saber/utils.h:420-440 | final corners do not depend on addScore |
| HardNmsLaws.OwnerExists | saber/utils.h:418-422 | every suppressed box is absorbed by some kept box |
| HardNmsLaws.OneOwner | saber/utils.h:403-422 | no box is absorbed by two kept boxes |
| HardNmsLaws.ScoreConservation | saber/utils.h:377-422 | with addScore the kept boxes' final scores sum to the original scores of kept and suppressed boxes, and to all considered scores when top_N leaves no box over, as when it is not reached |
| HardNmsLaws.VotedCornersBetween | saber/utils.h:424-440 | every voted corner lies between the smallest and largest of the contributing boxes |
| HardNmsLaws.VotedBoxIsProper | saber/utils.h:424-440 | if all contributors have x1 <= x2 and y1 <= y2 the voted box has too |
| SoftNms.SoftNms | saber/utils.h:275-360 | sorts, decays, votes and sorts again in place; fails exactly on a negative voting score in a round or a negative top_N; else exactly the places below top_N and below max_candidate_N (if positive) are marked, and the array is the sorted outcome of min(top_N, consider_size) rounds |
| SoftNms.Rounds | saber/utils.h:295-353 | the rounds over the array follow the run on scores and picks, with areas still matching every unpicked box |
| SoftNms.Round | saber/utils.h:296-352 | one round: the first box of highest score is picked, the others decay, the picked one is voted |
| SoftNms.Decay | saber/utils.h:320-346 | the inner loop over the boxes that are not picked yet |
| SoftNms.FindBest | saber/utils.h:296-304 | the linear search finds the first unmasked box of highest score |
| SoftNms.RoundFindsBox | saber/utils.h:305 | CHECK(max_box_idx != -1) never fires in a round below top_n_real |
| SoftNms.BestIsFirstHighest | saber/utils.h:296-304 | the pick has the highest score among unpicked boxes, and the first such place |
| SoftNmsMeaning.MarksAndPicks | saber/utils.h:283-294 | marks and picks are as many as the least of top_N, the number of boxes, and max_candidate_N if that is positive |
| SoftNmsMeaning.CornersAreMeans | saber/utils.h:307-352 | a pick keeps the score it was picked with; with voting and weight above 0.0001 each corner times the weight is the sum of corner times decayed score over the pick and the unpicked boxes with IoU above vote_iou; otherwise the corners stay |
| SoftNmsMeaning.FailsExactly | saber/utils.h:313-338 | a CHECK_GE fails if and only if voting is on and in some round the pick or a box that votes for it has a negative score after the decay |
| SoftNmsMeaning.OthersStay | saber/utils.h:320-334 | an unpicked box differs from the sorted one in its score alone, and a box that takes no part in nothing |
| SoftNmsLaws.MarksPicksIffSafe | saber/utils.h:295-359 | without voting the prefix mask marks exactly the picked boxes, for every geometry and iou_std, if and only if none or all considered boxes are picked or the sorted score at top_n_real - 1 is not negative |
| SoftNmsLaws.PicksInOrderIffSafe | saber/utils.h:295-359 | without voting the marked boxes are the picks in pick order, for every geometry and iou_std, if and only if the sorted scores are Safe |
| SoftNmsLaws.SafeRunsMarkSet | saber/utils.h:295-359 | with scores that are SafeToMark a run marks exactly its picks, with or without voting |
| SoftNmsLaws.SafeRunsMarkPicks | saber/utils.h:354-358 | for safe scores the final sort puts the picks first, in pick order |
| SoftNmsLaws.VotingRunsMarkPicks | saber/utils.h:312-358 | a voting run that passes its checks always does |
| SoftNmsLaws.RowMisplaced | saber/utils.h:295-358 | of two neighbouring negative scores the first one's box, picked first, ends up behind the other for some geometry and iou_std; if it is picked last, it is not marked |
| SoftNmsLaws.MarkedInArray | saber/utils.h:354-358 | when the mask marks the picks, the marked entries of the array are the picked boxes and the others are not picked |
| SoftNmsLaws.PrefixInArray | saber/utils.h:354-358 | then entry k of the array is the k-th pick, and every unpicked box comes after the prefix |
| SoftNmsLaws.TailUntouched | saber/utils.h:354-355 | boxes past consider_size keep their places and values |
| SoftNmsLaws.PicksIgnoreVoting | saber/utils.h:295-353 | picks and scores do not depend on voting |
| SoftNmsLaws.ScoresAreDamped | saber/utils.h:320-346 | a box's score is its first score times the decay of every box picked before it that it meets, at their overlap before voting |
| SoftNmsLaws.NonNegativeScoresPass | saber/utils.h:313-338 | without negative scores no CHECK_GE fires |
| SoftNmsLaws.PickedCornersBetween | saber/utils.h:336-352 | voted corners of a pick lie between those of its contributors |
| SoftNmsLaws.PickedIsProper | saber/utils.h:336-352 | and the voted pick is a proper box if its contributors are |
| SoftNmsLaws.PicksStay | saber/utils.h:320-323 | a picked box is not changed by later rounds |
| GraphNames.SplitVarInjective | framework/graph/graph.cpp:270-272 | the names v_split_i differ for different v or i |
| GraphNames.SplitOpInjective | framework/graph/graph.cpp:274 | the names of Split ops differ for different variables |
| GraphNames.DecimalReads | framework/graph/graph.cpp:272 | the number in a made-up name is decimal: digits only, read back as the number, no leading zero |
| GraphNames.MadeUpNames | framework/graph/graph.cpp:270-274 | the i-th copy of v is v_split_i with i in decimal, the Split op is vsplit |
| Nets.FrozenOp | framework/graph/graph.cpp:244-254 | an op keeps its name, op name and outputs; its inputs are renamed place by place |
| Nets.FrozenInput | framework/graph/graph.cpp:227-241 | a consumed, unproduced variable has one Input of its name |
| Nets.FrozenOutput | framework/graph/graph.cpp:259-287 | a produced, unconsumed variable has one Output of its name |
| Nets.FrozenSplit | framework/graph/graph.cpp:264-294 | a variable with several consuming places has one Split with an output per place |
| Nets.FrozenKinds | framework/graph/graph.cpp:209-294 | there are no other ops |
| FreezeResult.SplitOfVariable | framework/graph/graph.cpp:264-277 | a variable v with several places has the op vsplit of kind Split, with input v and outputs v_split_0, v_split_1 and so on, one per place |
| FreezeResult.ReaderOfVariable | framework/graph/graph.cpp:244-254 | an op that reads v reads v_split_i afterwards, i being its first entry among the readers, and v itself if it is the only place |
| Nets.IndexCovers | framework/graph/graph.cpp:210-221 | a variable-to-op map lists exactly the ops that list the variable |
| FreezeLinear.LinearIffNoRepeats | framework/graph/graph.cpp:256-294 | every variable has exactly one producer and one consumer if and only if no op lists an input twice |
| FreezeLinear.OneProducerAlways | framework/graph/graph.cpp:256-294 | every variable has at most one producer, and every consumed one is produced |
| FreezeLinear.OneConsumingOp | framework/graph/graph.cpp:244-280 | no two ops consume the same variable |
| FreezeMeaning.FreezePreservesMeaning | framework/graph/graph.cpp:209-294 | each op's k-th input has the value of the variable it named before, for any interpretation of the ops with Split as copy and any scanning order |
| FreezeMeaning.OutputsReadTheirVariable | framework/graph/graph.cpp:281-287 | each Output reads the value of the variable it is named after |
| FreezeMeaning.AcyclicIffFrozenAcyclic | framework/graph/graph.cpp:209-294 | the frozen net is acyclic if and only if the given one is |
| FreezeMeaning.RankDoesNotMatter | framework/graph/graph.cpp:209-294 | the value of a variable does not depend on the order in which ops are run |
| FreezeMeaning.ExampleIsFreezable | framework/graph/graph.cpp:209-294 | a net with an unproduced, a shared and an unconsumed variable meets everything that is asked of nets |
| FreezeArcs.ArcsAgree | framework/graph/graph.cpp:308-324 | a pair is added as in-arc of its top exactly when it is added as out-arc of its bottom, although only entry 0 is read |
| FreezeArcs.ArcIffFeeds | framework/graph/graph.cpp:308-316 | there is an in-arc from one op to another exactly when the second reads a variable that the first writes |
| FreezeArcs.ArcsAtBothEnds | framework/graph/graph.cpp:308-324 | every arc of the frozen graph is in the in-list of its top and the out-list of its bottom |
| FreezeArcs.SameCalls | framework/graph/graph.cpp:308-324 | in the linear form the multiset of pairs added as in-arcs equals the multiset added as out-arcs, for any scanning orders |
| FreezeArcs.CallsMatchIffNoRepeats | framework/graph/graph.cpp:308-324 | after Freeze these multisets are equal if and only if no op lists an input twice |
| FreezeArcs.InArcPerInput | framework/graph/graph.cpp:309-316 | an op has as many in-arcs as inputs if and only if its inputs have different producers, and then its k-th in-arc comes from the op that writes its k-th input |
| FreezeArcs.MergedKeepsAll | framework/graph/graph_base.inl:96-108 | the arc list keeps every call, in order, exactly when no pair is added twice |
| FreezeScans.BuildIndex | framework/graph/graph.cpp:212-221 | the map lists, for each variable, one entry per place that lists it |
| FreezeScans.UnproducedInputs | framework/graph/graph.cpp:227-234 | the maps describe one Input per consumed, unproduced variable |
| FreezeScans.ReplaceIn | framework/graph/graph.cpp:248-252 | every occurrence of the split variable in one list is replaced |
| FreezeScans.ReplaceNext | framework/graph/graph.cpp:247-253 | an entry of the split takes effect only where it is the first entry of its op |
| FreezeScans.ReplaceIsPart | framework/graph/graph.cpp:244-280 | splitting one more variable is the renaming with one more variable |
| FreezePlan.PlanSplit | framework/graph/graph.cpp:264-277 | a variable with several places plans one Split |
| FreezePlan.PlanOutput | framework/graph/graph.cpp:259-263 | an unconsumed variable plans one Output |
| FreezePlan.RoundsGiveFrozen | framework/graph/graph.cpp:256-294 | the scan and the three rounds of AddOp give the frozen net |
| Freezing.Graph.AddOp | framework/graph/graph.cpp:88-98 | an existing vertex keeps its op name, its variable lists are overwritten |
| Freezing.Graph.AddOps | framework/graph/graph.cpp:235-241 | a round adds exactly the ops of its maps and notes each once |
| Freezing.Graph.ReplaceSplitIns | framework/graph/graph.cpp:244-254 | the ops that read the variable read their own copies |
| Freezing.Graph.ScanProduced | framework/graph/graph.cpp:256-280 | plans Outputs and Splits for all produced variables, rewiring readers on the way |
| Freezing.Graph.ConnectAll | framework/graph/graph.cpp:309-324 | every op's arc list holds the links of its variables, in order, each pair once |
| Freezing.Graph.Freeze | framework/graph/graph.cpp:209-326 | the graph becomes the frozen net of its old shape; old vertices stay, new ones and all edges carry default marks; _ins, _outs and split_num note the made-up ops once each; an arc joins two ops exactly when one reads what the other writes, and is listed at both ends |
| GraphBase.GraphBase.AddInArc | framework/graph/graph_base.inl:96-108 | one arc per pair; the in-list of the top gets it unless it is there |
| GraphBase.GraphBase.AddOutArc | framework/graph/graph_base.inl:128-140 | one arc per pair; the out-list of the bottom gets it unless it is there |
| GraphBase.GraphBase.GetGraphIns | framework/graph/graph_base.inl:326-352 | the bottoms of arcs that have no in-arc |
| GraphBase.GraphBase.Bfs | framework/graph/algorithm.inl:82-126 | visits exactly the vertices reachable from a root, each once, and none before one that has fewer steps to a root; fails exactly when there is no root |
| VirtualGraph.CopyArcs | framework/graph/graph.cpp:487-520 | the copy has exactly the arc lists of the reachable vertices, in order, and the arcs in these lists; fails exactly when an end is missing or nothing starts the scan |
| VirtualGraph.GetVGraph | framework/graph/graph.cpp:475-522 | succeeds exactly when some vertex starts the scan and no arc list of a reachable vertex leads to an unreachable one; the result is their image with op names and edge names |
| VirtualGraph.SameReach | framework/graph/graph.cpp:475-522 | the image has the same reachable vertices |
| VirtualGraph.ContainedIffClosed | framework/graph/graph.cpp:487-520 | where arcs are listed at both ends, no list leads out of the reachable vertices exactly when no arc enters them from an unreachable vertex |
| VirtualGraphBack.Gather | framework/graph/graph.cpp:526-552 | each edge name is mapped to what the last edge of that name in scanning order holds, and every scanned edge's name is mapped |
| VirtualGraphBack.Recover | framework/graph/graph.cpp:730-762 | every edge is looked up under its name, each once, the others stay |
| VirtualGraphBack.MarkNodes | framework/graph/graph.cpp:651-684 | each node that both scans reach has the op name, the need_wait and the lane of its namesake afterwards, the others stay; succeeds exactly when both graphs have a root |
| VirtualGraphBack.RestoreArcs | framework/graph/graph.cpp:593-762 | the arc lists become those of the virtual graph; op names, need_wait and lane of nodes and shared, share_from and lane of edges are those there; scales and layouts come by name |
| VirtualGraphBack.RestoreFromVGraph | framework/graph/graph.cpp:588-762 | the same, with scales and layouts noted from the graph before its arcs are cleared |
| VirtualGraphBack.NamesDecide | framework/graph/graph.cpp:730-762 | what is looked up by name comes back exactly when edges of the same name agree |
| VirtualGraphBack.RoundTrip | framework/graph/graph.cpp:475-762 | vertices, op names, in-arc and out-arc order of the reachable part come back, marks are fresh, scales and layouts come back if and only if same-named edges agree |
| VirtualGraphBack.RisingSurvives | framework/graph/graph.cpp:475-762 | when arcs rise in some rank the round trip succeeds exactly when there is an arc, and loses none |
| VirtualGraphBack.FrozenArcsRise | framework/graph/graph.cpp:309-324 | the arcs that Freeze makes for an acyclic net rise |
| VirtualGraphBack.NamesCollide | framework/graph/arc.inl:50-54 | two different edges can have the same name |
| VirtualGraphBack.NamesApart | framework/graph/arc.inl:50-54 | they cannot when bottom names have no underscore |
| GuardTable.FunctorRunsOnce | framework/graph/graph_global_mem.h:170-184 | over every run the functor is called on a live registered block exactly when the level was not applied to it since it was last registered |
| GuardTable.StepRefines | framework/graph/graph_global_mem.h:95-184 | every event keeps the address-keyed table in step with a block-keyed one, also when data moves onto a stale address |
| GuardTable.RunRefines | framework/graph/graph_global_mem.h:87-260 | so does every run |
| GuardTable.UsedIsAppliedSince | framework/graph/graph_global_mem.h:95-184 | the block-keyed table holds the levels applied since the last registration |
| GuardTable.GraphGlobalMem.NewBlock | framework/graph/graph_global_mem.h:95-103 | the new block is live, added to the pool of its type, and has no level used |
| GuardTable.GraphGlobalMem.RegisterBlock | framework/graph/graph_global_mem.h:105-110 | all levels of the block are accessible again |
| GuardTable.GraphGlobalMem.Rekey | framework/graph/graph_global_mem.h:179-183 | emplace, swap and erase: the new address has the flags of the old one, whatever was there; the old address loses its entry, or, if null, takes over what was there or new flags; nothing else changes |
| GuardTable.GraphGlobalMem.Apply | framework/graph/graph_global_mem.h:170-184 | the functor runs exactly when the level was not applied since registration, and the flags follow the data |
| GuardTable.GraphGlobalMem.ApplyNull | framework/graph/graph_global_mem.h:170-188 | without data the functor runs once, or twice while the null flag is set; in the second case the flags go where the data went, and the null address has new flags again unless the data stayed null or went to a stale address; live blocks are not affected |
| GuardTable.GraphGlobalMem.CleanAll | framework/graph/graph_global_mem.h:242-256 | exactly the pool's blocks die, the table keeps their addresses |
| Glue.ReadsLastChange | saber/utils.h:69-175 | over every run a read on either side finds the value written or installed last on either side |
| Glue.ReadsFirstContent | saber/utils.h:106-175 | without a change in between both sides read the first content |
| Glue.ReadsCopyOnce | saber/utils.h:129-175 | reads alone copy at most once: exactly one copy if some read is on the side that is behind, and both sides are in step from then on |
| Glue.RunKeepsBuffer | saber/utils.h:69-175 | every run is coherent and holds what one logical buffer would |
| Glue.StepKeepsBuffer | saber/utils.h:129-175 | the side named by head has a tensor, synced sides agree, and each operation acts as on one buffer |
| Glue.BooksInOrder | saber/utils.h:40-175 | over every run no tensor is deleted twice, an allocated one is deleted exactly when neither side uses it, and one from outside is never deleted |
| Glue.EachMadeIsDeletedOnce | saber/utils.h:40-175 | over every run that ends with the destructor the deletions are the allocated tensors, once each, and no tensor from outside; before, nothing in use is deleted |
| Glue.PairReads | saber/utils.h:40-46 | a glue made from two tensors is coherent exactly when they are equal |
| Glue.PGlue.SetExternDevice | saber/utils.h:69-76 | installs the tensor; an own device tensor is deleted first, one from outside is not; the host tensor stays |
| Glue.PGlue.SetExternHost | saber/utils.h:77-84 | the same for the host |
| Glue.PGlue.ToHost | saber/utils.h:129-151 | copies only when the device is ahead, and both are in step afterwards; allocates a new tensor exactly when the host has none then, keeps both pointers otherwise, deletes nothing; fatal exactly when uninitialized |
| Glue.PGlue.ToDevice | saber/utils.h:153-175 | the same for the device |
| Glue.PGlue.HostData | saber/utils.h:107-110 | the host tensor holds what the buffer holds; the device tensor stays, and only a missing host tensor is allocated |
| Glue.PGlue.DeviceData | saber/utils.h:118-121 | the device tensor holds what the buffer holds; the host tensor stays, and only a missing device tensor is allocated |
| Glue.PGlue.HostMutableData | saber/utils.h:112-116 | afterwards the host is ahead; a store through the pointer is a write to the buffer; ownership as for a read |
| Glue.PGlue.DeviceMutableData | saber/utils.h:123-127 | the same for the device |
| Glue.PGlue.Destroy | saber/utils.h:61-68 | afterwards the calls of delete are one for each tensor allocated here and none for a tensor from outside |
| Splitting.StringSplit | examples/anakin/anakin_helper.h:130-149 | for any non-empty delimiter: the pieces between occurrences, the last one starting right after the first character of the last delimiter |
| Splitting.SplitThenJoin | examples/anakin/anakin_helper.h:130-149 | joining gives the input back if and only if the delimiter is one character or absent |
| Splitting.JoinPieces | examples/anakin/anakin_helper.h:130-149 | joining the pieces between occurrences gives the input back |
| Splitting.LastStartsEarly | examples/anakin/anakin_helper.h:146 | the last piece returned is the suffix that begins one character after the last delimiter begins |
| Splitting.PiecesAreFree | examples/anakin/anakin_helper.h:130-149 | no such piece holds the delimiter |
| Splitting.StringSplitAll | examples/anakin/anakin_helper.h:151-170 | one round per delimiter over the pieces so far |
| Splitting.RoundsInOrder | examples/anakin/anakin_helper.h:156-167 | the delimiters are applied in their order, each to the pieces so far, and the pieces keep their order |
| Splitting.RoundsAreOneScan | examples/anakin/anakin_helper.h:151-170 | for one-character delimiters the rounds equal one scan that cuts at any of them |
| Splitting.OrderDoesNotMatter | examples/anakin/anakin_helper.h:151-170 | so the order of the delimiters, or a repetition, makes no difference |
| Splitting.CutIsFree | examples/anakin/anakin_helper.h:151-170 | no piece holds any of the delimiters |
| Splitting.SplitString | examples/anakin/anakin_helper.h:210-226 | appends the pieces, without an empty last one |
| Splitting.SplitStringPieces | examples/anakin/anakin_helper.h:210-226 | nothing is appended exactly for the empty text, and the last piece is never appended empty |
| Splitting.SplitStringThenJoin | examples/anakin/anakin_helper.h:210-226 | joining gives the input back up to one trailing delimiter |
| Batching.Data.GetBatchData | examples/anakin/map_rnn.cpp:32-107 | reads as many lines as the batch size says, at least one, or all that are left; offsets start at 0, rise strictly, end at the number of rows, and slice k is line k's links |
| Batching.ReadLine | examples/anakin/map_rnn.cpp:47-98 | one line adds its links, its week row, its time row and one offset |
| BatchMeaning.LineInBatch | examples/anakin/map_rnn.cpp:47-98 | a line a:b:c, or longer, leaves the links of a as the rows between its offsets, the numbers of b as its time row and the numbers of c as its week row: texts cut at bars and commas, joined back they give the field, each number read by atof |
| BatchMeaning.LineHasForm | examples/anakin/map_rnn.cpp:47-50 | every line with three fields is of the form a:b:c or longer, with no colon in a, b and c |
| Batching.HoldsAllLinks | examples/anakin/map_rnn.cpp:51-98 | the rows of a batch are the links of its lines, in order |
| Batching.Collect | examples/anakin/map_rnn.cpp:133-150 | terminates; the batches hold consecutive chunks of the file, full ones but for the last, and leave no line |
| Batching.BatchesHoldAll | examples/anakin/map_rnn.cpp:133-150 | the link, week and time rows of all batches are the parsed ones of the whole file, in order |
| Tokenizing.WordsAreStretches | benchmark/RNN/Tokenizer.py:24-59 | the words are the non-empty stretches between filtered characters and separators, and no other character is lost |
| Tokenizing.Tokenizer.SeqOfMeaning | benchmark/RNN/Tokenizer.py:206-212 | a list of tokens gives itself; at character level a text gives its characters one by one; any other text gives its non-empty stretches between filtered characters and separators, after lower |
| Tokenizing.CountWords | benchmark/RNN/Tokenizer.py:213-217 | adds the occurrences of each word; new words join in order of first appearance |
| Tokenizing.CountDocs | benchmark/RNN/Tokenizer.py:218-222 | adds one for each word of the text, for any order of the set |
| Tokenizing.OrderIsDistinct | benchmark/RNN/Tokenizer.py:213-222 | the order lists exactly the words that occur, once each |
| TokenMeaning.CountersMeaning | benchmark/RNN/Tokenizer.py:213-222 | exactly the words read are counted, each as often as it was read in all texts, and with the number of texts that hold it |
| TokenMeaning.OrderIsByFirstUse | benchmark/RNN/Tokenizer.py:213-217 | of two words the one that comes earlier in the order was read somewhere before the other was |
| Tokenizing.BuildIndex | benchmark/RNN/Tokenizer.py:226-234 | word k of the ranking has index k + 1; the unknown-word token comes last unless it was seen |
| Tokenizing.IndexDocs | benchmark/RNN/Tokenizer.py:236-237 | afterwards exactly the indexes 1 to n are mapped, each to its word's document count: nothing stale survives |
| Tokenizing.Tokenizer.FitOnTexts | benchmark/RNN/Tokenizer.py:191-237 | each text joins as the words that SeqOfMeaning says; counts, document counts, order, index and index_docs are what all texts fitted so far determine |
| Tokenizing.FittedIsUnique | benchmark/RNN/Tokenizer.py:191-237 | they determine them uniquely |
| Tokenizing.FitTwice | benchmark/RNN/Tokenizer.py:191-237 | fitting in two calls leaves the same state as fitting all texts in one call |
| Tokenizing.IndexRanks | benchmark/RNN/Tokenizer.py:224-229 | a word has a smaller index exactly when it is more frequent, or as frequent and seen earlier |
| Tokenizing.IndexIsOnto | benchmark/RNN/Tokenizer.py:226-234 | seen words use exactly the indexes 1 to n, each once; 0 is never used |
| Tokenizing.Tokenizer.TextToSequence | benchmark/RNN/Tokenizer.py:292-313 | the entries of one text, or the exception it raises |
| Tokenizing.Tokenizer.TextsToSequences | benchmark/RNN/Tokenizer.py:260-275 | succeeds exactly when every text does, with one sequence per text |
| Tokenizing.UnknownWords | benchmark/RNN/Tokenizer.py:303-312 | an unknown word is a TypeError exactly when num_words is set and leaves a None exactly when it is not |
| TokenMeaning.BeforeFitting | benchmark/RNN/Tokenizer.py:303-304 | before fitting a text without words gives an empty sequence, any other an AttributeError |
| TokenMeaning.EntriesWithoutBound | benchmark/RNN/Tokenizer.py:303-312 | with num_words None or 0 the k-th entry is the index of the k-th word, or None if it is unknown |
| TokenMeaning.EntriesWithToken | benchmark/RNN/Tokenizer.py:303-312 | with num_words and an oov_token the k-th entry is the index of the k-th word if that is below num_words, else num_words |
| TokenMeaning.EntriesWithoutToken | benchmark/RNN/Tokenizer.py:303-312 | with num_words and no oov_token the entries are the indexes of the words whose index is below num_words, in order |
| Tokenizing.KeptAreMostFrequent | benchmark/RNN/Tokenizer.py:303-312 | a kept word is at least as frequent as every dropped or replaced word |
| Tokenizing.RankNumWordsIsDropped | benchmark/RNN/Tokenizer.py:306-310 | the word ranked num_words is dropped, or replaced by an entry that is its own index |
| Tokenizing.DecodeRestores | benchmark/RNN/Tokenizer.py:303-312 | decoding the entries below num_words restores the kept words in order |
| Tokenizing.DecodeRestoresAll | benchmark/RNN/Tokenizer.py:303-312 | without num_words decoding restores every word of a text of known words |

## Left out

- HardNms.Nms: floating-point rounding; the contents of the array after a failed CHECK, which aborts the program.
- SoftNms.SoftNms: the same, and `exp` itself; what the array holds after the length error of a negative top_N.
- Freezing.Graph.Freeze: asks for at most one producer per variable, made-up names that are free, no op named like an unproduced or unconsumed variable, and a graph without arcs; what Freeze does to other graphs is not stated. Node attributes other than the op name and split_num are not modelled.
- VirtualGraphBack.RestoreFromVGraph: asks for a virtual graph without merged nodes whose vertices are all reachable, which get_vgraph yields; node merging, the fusion edge map, slice_info and the ConvEltwise scale patching are not modelled, nor are the tensors that edges carry and the registered outs.
- VirtualGraphBack.RestoreArcs: the same; what becomes of merged or unreachable nodes is not stated.
- VirtualGraphBack.RoundTrip: asks that every arc is among the in-arcs of its top and the out-arcs of its bottom, which Freeze establishes; so do the two lookups and `RestoreFromVGraph`.
- VirtualGraphBack.MarkNodes: the inner scan stops at the node it looks for; here it finishes, which makes no difference.
- FreezeMeaning.FreezePreservesMeaning: asks for an acyclic net, given by a rank of the ops; on a cyclic one variables have no value.
- GuardTable.GraphGlobalMem.Apply: asks for a registered block (an unknown address dereferences a null pointer) and for addresses that no other live block has; the mutexes make each call one step. Functors that move data to null are not covered.
- GuardTable.GraphGlobalMem.ApplyNull: the tensor is not registered by the call, so what later calls do with it is not stated.
- Glue.PGlue.SetExternDevice: asks for a tensor that is not null, is not the host's, and was not allocated by this glue (the code checks none of this, and would delete an own tensor that it is given back).
- Glue.PGlue.SetExternHost: asks for the same.
- Glue.PGlue.FromBoth: asks for equal contents; `re_alloc`, `reshape` and default copying of a PGlue are not modelled, and an asynchronous copy followed by sync is one copy. Stores through a pointer are seen only while their side is ahead.
- Splitting.StringSplit: asks for a non-empty delimiter, as an empty one makes the loop run forever.
- Batching.Data.GetBatchData: asks for lines with at least three fields, as the code indexes them unchecked; the 10000-character line buffer, file opening and `atof` itself are not modelled.
- Tokenizing.WordsAreStretches: the separator is one character; `str.lower` is a parameter.
- Tokenizing.Tokenizer.TextsToSequences: the generator is run to its end; `fit_on_sequences`, the matrix modes and hashing are not modelled.
- The two-tensor and PBlock forms of `apply`: their access rules differ (`||`, no unconditional run) and they would need their own model.
- `RegistVar`, `RegistOut`, `Optimize`, schedulers, fusion patterns, the parser and the model loader.
- `targets2coords`, `coef2dTo3d` and the other coordinate transforms in `saber/utils.h`: arithmetic without state.
