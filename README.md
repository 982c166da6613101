# Course-graph planner: a Dafny model

This project models the course search of `path_planner/src/course/search.cpp`. A course is a
graph of straight segments joined by curved transitions. A request connects a start and an end
pose to the course, searches the cheapest sequence of transitions from the start segment to the
end segment, and renders it as a sequence of poses between the two appendices.

The model follows the planner's structure:

- `CourseGraph` (course.dfy) is the course: segments with forward and backward transition lists,
  and transitions with source, target, polyline and arc length, all referred to by index.
- `CostModel` (cost_model.dfy) holds the planner parameters, one `Node` per transition (driving
  direction, reached segment, cost, `prev`/`next` links), the endpoint helpers
  (`StartPointOnNextSegment`, `EndPointOnNextSegment`, `EntryPoint`, `ExitPoint`), the direction
  tests and the curve and straight costs. These are pure functions of the course, the parameters,
  the request's endpoints and the node arena.
- `PathAssembly` (path_assembly.dfy) renders a node chain into poses in two layers. `InputOf`
  gathers what one node contributes (transition, curve direction, whether the next segment is
  negligible, the next segment's direction, the two extension poses). `Hop`, `HopStep` and
  `RunPrefix` then give the case split of path assembly over those inputs.
- `NodeChains` (chain.dfy) defines predecessor chains. A ghost rank that strictly decreases along
  `prev` links makes the walk back along `prev` terminate.
- `SearchState` (search_state.dfy) states the search invariant. Nodes that have been expanded carry
  a ghost time stamp, and `floor` is the cost of the last dequeued node. This part also holds the
  lemmas showing that dequeuing, expanding, relaxing and taking a candidate keep the invariant.
- `SearchRounds` (search_rounds.dfy) describes a whole search as a trace of rounds. Each round
  dequeues a least-cost frontier node, which either yields a candidate (on the end segment) or is
  expanded. This part proves that the best cost after a search is the least candidate total, and
  that the best path is the one rendered by the candidate that reached it.
- `Planner` (search.dfy) is the stateful planner: class `Search`, whose methods update the arena
  (`nodes`), the running minimum (`minCost`) and the best path (`bestPath`) in place. Its loops
  over values (seeding, chain rebuild, signature, assembly) are module-level methods.
- `Utilities` (utilities.dfy) holds `combine` and the cell conversion of the map set-up.

Positions are exact reals. The Euclidean norm is a parameter: an uninterpreted function that
never returns a negative value. Yaw angles and the poses placed a turning stub ahead of a point
come from trigonometry, so they stay symbolic. A heading is the vector whose angle it is, and a
pose "beyond" a point records that point and the direction.

Behaviour kept as the code has it:

- relaxation charges the current node's curve cost and picks the neighbour's entry point with the
  current node's direction;
- a candidate adds its connection cost to the node's own cost;
- the zero-length branch of path assembly keeps the incoming direction;
- start nodes are costed on their reached segment's axis;
- `best_path` is cleared only when a candidate improves the best cost. A search without any
  candidate therefore returns the previous request's best path, and the model keeps that behaviour
  (`PerformDijkstraSearch` ensures `bestPath == old(bestPath)` when no candidate was found).

## Model

| member | source | states |
|---|---|---|
| `Utilities.Combine` | path_planner/src/course/search.cpp:353-366 | the result is start ++ centre ++ end, and exactly `centre` when both appendices are empty |
| `Utilities.CellValue` | path_planner/src/course/search.cpp:157 | a cell value is 0 exactly for unknown (-1), and at most 100 for every value from -1 up |
| `Utilities.CellValueRange` | path_planner/src/course/search.cpp:153-157 | unknown (-1) becomes 0, 0..99 become v + 1, anything from 99 up becomes 100, every input in [-1, 100] lands in [0, 100], and values below -1 wrap as a byte |
| `Utilities.ConvertMapData` | path_planner/src/course/search.cpp:150-158 | the buffer has `w*h` cells (an unsigned 32-bit product), the i-th input cell is converted into cell i, and the cells past the input stay 0 |
| `CostModel.DefaultParams` | path_planner/src/course/search.cpp:28-31 | the default penalty factor, turning penalty and turning stub are valid parameters whenever the norm is non-negative |
| `CostModel.EntryExitSwap` | path_planner/src/course/search.cpp:260-292 | a transition's entry point in one direction is its exit point in the other, and the two are its polyline's ends |
| `CostModel.IsSegmentForwardReversal` | path_planner/src/course/search.cpp:322-330 | over a stretch not perpendicular to the segment, swapping start and target flips the direction test |
| `CostModel.EffectiveLengthOfNextSegment` | path_planner/src/course/search.cpp:315-318 | the effective length of the next segment is never negative |
| `CostModel.Reversals` | path_planner/src/course/search.cpp:380-389 | the number of direction changes over three driven directions is at most 2, and 0 exactly when all agree |
| `CostModel.CurveCostByDirection` | path_planner/src/course/search.cpp:394-401 | the curve cost is the arc length forward and the penalty factor times the arc length backward |
| `CostModel.CurveBackwardScaling` | path_planner/src/course/search.cpp:394-401 | driving the same curve backward costs the penalty factor times driving it forward |
| `CostModel.DistanceBackwardScaling` | path_planner/src/course/search.cpp:371-377 | the backward distance cost is the penalty factor times the forward one, and both are non-negative for valid parameters |
| `CostModel.StraightCostCases` | path_planner/src/course/search.cpp:368-392 | a single turn adds one stub plus one penalty, otherwise a double turn adds two of each, otherwise nothing; the single turn wins when both tests differ |
| `CostModel.StraightCostCountsReversals` | path_planner/src/course/search.cpp:368-392 | the surcharge is one stub plus one penalty per direction change from the previous segment to the curve to this segment |
| `CostModel.StraightCost` | path_planner/src/course/search.cpp:368-392 | a straight cost is at least its distance cost in the driven direction, which is never negative |
| `CostModel.CurveCost` | path_planner/src/course/search.cpp:394-401 | a curve cost is never negative |
| `CostModel.RelaxCost` | path_planner/src/course/search.cpp:96-101 | the cost offered to a neighbour is at least the current node's cost |
| `CostModel.IsSegmentForward` | path_planner/src/course/search.cpp:322-330 | a movement of length zero, or along a segment of length zero, counts as forward |
| `CostModel.IsStartSegmentForward` | path_planner/src/course/search.cpp:306-309 | a start point that is already the transition's entry point drives the start segment forward |
| `CostModel.IsNextSegmentForward` | path_planner/src/course/search.cpp:311-314 | a next segment whose start and end points coincide is driven forward |
| `CostModel.CostsAreNotRead` | path_planner/src/course/search.cpp:403-407 | changing node costs changes no endpoint, direction, curve cost or straight cost, so the candidate's cost update does not affect its own rendering |
| `PathAssembly.CurvePoses` | path_planner/src/course/search.cpp:625-649 | a curve over m points renders as m - 1 poses |
| `PathAssembly.CurvePosesAt` | path_planner/src/course/search.cpp:625-649 | pose k is point k + 1 heading from point k when forward, and point m - 2 - k heading from point m - 1 - k when backward |
| `PathAssembly.CurvePosesShape` | path_planner/src/course/search.cpp:625-649 | a curve renders path[1..m-1] forward and path[m-2] down to path[0] backward, ending on the curve's exit point |
| `PathAssembly.BackwardCurveIsReversedForward` | path_planner/src/course/search.cpp:639-647 | driving a curve backward renders exactly like driving its reversed polyline forward |
| `PathAssembly.HopShape` | path_planner/src/course/search.cpp:436-623 | per node (`Hop` with `AlongTargetPose`, `AlongSourcePose` and `TurningStubPose`): with a negligible segment no extra pose and the direction is kept; otherwise one extra pose per direction change, poses before the curve lie ahead of its entry and poses after it ahead of its exit, a double turn puts one turning stub before the curve and one extension after it, along the target segment when the curve is driven forward and along the source segment otherwise; a reversal adds one extension, along the target segment when leaving forward and along the source segment otherwise, after the curve exactly when the curve keeps the previous direction |
| `PathAssembly.HopStep` | path_planner/src/course/search.cpp:436-539 | one node adds at least one pose and keeps the first pose |
| `PathAssembly.HopStepExtends` | path_planner/src/course/search.cpp:436-539 | one node keeps everything emitted so far as a prefix and adds at least one pose |
| `PathAssembly.RunPrefix` | path_planner/src/course/search.cpp:430-541 | after i nodes at least i + 1 poses have been emitted, the first still first |
| `PathAssembly.AssembledPathEnds` | path_planner/src/course/search.cpp:428-562 | an assembled path (`FirstPose`, the hops, `LastPose`) starts with the start-point pose, ends with the end-point pose, and has at least one pose per node between |
| `PathAssembly.InsertCurveSegment` | path_planner/src/course/search.cpp:625-649 | the method's loops append exactly the curve's poses |
| `NodeChains.Chain` | path_planner/src/course/search.cpp:414-422 | the predecessor chain of n is non-empty, ends with n and lies in the arena |
| `NodeChains.ChainShape` | path_planner/src/course/search.cpp:414-422 | the chain starts at a node without predecessor, each element is the `prev` of the next, and no node occurs twice |
| `NodeChains.ChainSamePrev` | path_planner/src/course/search.cpp:405-424 | the chain depends on `prev` links only, so cost and `next` updates keep it |
| `SearchState.InitialArena` | path_planner/src/course/search.cpp:168-183 | the arena after set-up has exactly one node per listed transition |
| `SearchState.FreshArenaWellFormed` | path_planner/src/course/search.cpp:168-183 | the fresh arena is consistent with the course and has no links and no finite cost |
| `SearchState.DequeuePreserves` | path_planner/src/course/search.cpp:83-85 | taking a least-cost node off the frontier raises the floor to its cost and keeps the invariant |
| `SearchState.ExpandPreserves` | path_planner/src/course/search.cpp:87-93 | stamping a dequeued node off the end segment as expanded keeps the invariant |
| `SearchState.ExpandShrinks` | path_planner/src/course/search.cpp:83-116 | expanding a node leaves fewer unexpanded nodes |
| `SearchState.RelaxPreserves` | path_planner/src/course/search.cpp:101-113 | a successful relaxation from an expanded node never improves an expanded node, and keeps the invariant with the neighbour queued |
| `SearchState.RelaxFold` | path_planner/src/course/search.cpp:95-114 | relaxing a transition list keeps the arena's ids, its consistency with the course and the current node's cost |
| `SearchState.RelaxFoldKeeps` | path_planner/src/course/search.cpp:95-114 | relaxing a transition list from an expanded node keeps the invariant, only adds to the frontier and raises no cost |
| `SearchState.Expansion` | path_planner/src/course/search.cpp:93-116 | expanding a node (forward list, then backward list of its reached segment) keeps the arena's ids and its consistency with the course |
| `SearchState.ExpansionKeeps` | path_planner/src/course/search.cpp:93-116 | an expansion from an expanded node keeps the invariant, only adds to the frontier and raises no cost |
| `SearchState.ExpandKeeps` | path_planner/src/course/search.cpp:87-116 | stamping a dequeued node off the end segment and expanding it keeps the invariant and leaves fewer unexpanded nodes |
| `SearchState.CandidateTotal` | path_planner/src/course/search.cpp:405-407 | a candidate's total is at least its own cost |
| `SearchState.CandidatePreserves` | path_planner/src/course/search.cpp:88-91 | a candidate's cost update and link repair keep the invariant |
| `SearchState.MinOf` | path_planner/src/course/search.cpp:410-411 | the minimum is +infinity exactly when there is no candidate, and otherwise a candidate total no larger than any other |
| `SearchState.MinOfSnoc` | path_planner/src/course/search.cpp:410-411 | keeping a running minimum with a strict comparison yields the least candidate total |
| `SearchState.ChainRelinked` | path_planner/src/course/search.cpp:414-422 | after the link repair each chain element but the last points at its successor, every other node keeps its `next`, and nothing else changes |
| `SearchRounds.StartFrontier` | path_planner/src/course/search.cpp:121-135 | the first frontier holds exactly the start segment's forward and backward transitions, all of them listed ids |
| `SearchRounds.CandidateWitness` | path_planner/src/course/search.cpp:403-426 | a candidate whose relinked chain is rendered under a known ranking is a candidate round's outcome |
| `SearchRounds.RoundsSnoc` | path_planner/src/course/search.cpp:83-116 | a round that follows the last one extends a trace of rounds |
| `SearchRounds.CandidateRoundStep` | path_planner/src/course/search.cpp:83-91 | dequeuing a least-cost node on the end segment and taking it as a candidate extends the search run by one round |
| `SearchRounds.ExpandRoundStep` | path_planner/src/course/search.cpp:83-116 | dequeuing a least-cost node off the end segment and expanding it extends the search run by one round |
| `SearchRounds.RoundOutcome` | path_planner/src/course/search.cpp:88-91 | a round changes the best cost only for a candidate whose total beats it, and changes neither cost nor path otherwise |
| `SearchRounds.RoundsOutcomes` | path_planner/src/course/search.cpp:83-116 | every round of a trace has that outcome |
| `SearchRounds.TotalsSnoc` | path_planner/src/course/search.cpp:88-91 | a round adds its candidate's total, if any, after the totals of the rounds before |
| `SearchRounds.MinOfStep` | path_planner/src/course/search.cpp:410-411 | taking in at most one more total updates the least total exactly as the best cost is updated |
| `SearchRounds.OutcomeMinOf` | path_planner/src/course/search.cpp:410-411 | a round takes its total, if any, into the least total as it updates the best cost |
| `SearchRounds.OutcomesMinCost` | path_planner/src/course/search.cpp:83-119 | starting from no best cost, the best cost after k rounds is the least total of their candidates |
| `SearchRounds.RunMinCost` | path_planner/src/course/search.cpp:73-119 | at the end of a search the best cost is the least total of all its candidates |
| `SearchRounds.RoundsBestPath` | path_planner/src/course/search.cpp:83-119 | after k rounds the best cost and path are the initial ones, or a round j < k took a candidate whose total beat the best cost then, and that total and the path it rendered are still the best |
| `SearchRounds.RunBestPath` | path_planner/src/course/search.cpp:73-119 | at the end of a search either no best cost was found and the path is the one kept from before, or both come from a winning candidate |
| `Planner.DirectionSymbolsMatchInputs` | path_planner/src/course/search.cpp:658-666 | the signature has `>` exactly at the nodes whose path-assembly input gives the next segment as forward |
| `SearchState.StartCost` | path_planner/src/course/search.cpp:129-131 | a start node's cost is never negative |
| `SearchState.SeededSameLinks` | path_planner/src/course/search.cpp:121-135 | seeding changes costs only, and the seeded costs are finite and non-negative |
| `SearchState.SeededAdd` | path_planner/src/course/search.cpp:125-133 | seeding one more transition sets exactly its cost to its start cost |
| `SearchState.SeededInv` | path_planner/src/course/search.cpp:75-81 | the seeded arena satisfies the search invariant with nothing expanded and floor 0 |
| `SearchState.RelaxKeeps` | path_planner/src/course/search.cpp:101-113 | a relaxation, successful or not, keeps the invariant and the current node's cost |
| `Planner.AppendHop` | path_planner/src/course/search.cpp:436-539 | the poses appended for one node and the direction carried out are those of the node's hop |
| `Planner.AppendCurveOnly` | path_planner/src/course/search.cpp:438-443 | a negligible segment appends the curve alone and keeps the direction |
| `Planner.AppendKeepingDirection` | path_planner/src/course/search.cpp:448-475 | the same direction appends the curve, between two turning stubs when the curve runs the other way |
| `Planner.AppendReversing` | path_planner/src/course/search.cpp:477-535 | a reversal appends one extension, before or after the curve as the four direction cases decide |
| `Planner.SeedList` | path_planner/src/course/search.cpp:125-133 | after one transition list, the frontier is the old frontier plus the list, and exactly those nodes carry their start cost |
| `Planner.RelinkChain` | path_planner/src/course/search.cpp:414-422 | the walk back along `prev` yields the chain oldest first and the arena with its `next` links repaired |
| `Planner.ChainSymbols` | path_planner/src/course/search.cpp:654-670 | the walk yields one direction symbol per chain node in chain order, and the node without predecessor it ends at |
| `Planner.AppendHops` | path_planner/src/course/search.cpp:432-541 | the loop emits the first pose followed by each node's hop, the direction carried from node to node |
| `Planner.GeneratePath` | path_planner/src/course/search.cpp:428-543 | the rendered path is the assembled path of the chain |
| `Planner.Search.constructor` | path_planner/src/course/search.cpp:20-37 | a planner starts with the given course and parameters, no nodes, infinite best cost and empty paths |
| `Planner.Search.InitNodes` | path_planner/src/course/search.cpp:168-183 | the arena becomes the initial arena, one node per listed transition: forward-listed ones driven forward onto their target, backward-listed ones backward onto their source, no cost, no links |
| `Planner.Search.EnqueueStartingNodes` | path_planner/src/course/search.cpp:121-135 | the frontier is exactly the start segment's transitions, each costed from the start point to its entry, all other nodes unchanged |
| `Planner.Search.ExtractMin` | path_planner/src/course/search.cpp:84-85 | the dequeued node is in the frontier and has least cost |
| `Planner.Search.Relax` | path_planner/src/course/search.cpp:96-113 | when the offered cost is strictly lower the neighbour gets the current node as `prev` and the new cost, the current node gets the neighbour as `next`, and the neighbour is queued; otherwise nothing changes; no cost rises |
| `Planner.Search.RelaxAll` | path_planner/src/course/search.cpp:95-114 | the new arena and frontier are the relaxation of each listed transition in turn: a neighbour offered a strictly lower cost gets it, with the current node as `prev`, and joins the frontier |
| `Planner.Search.RelaxNeighbours` | path_planner/src/course/search.cpp:93-116 | the new arena and frontier are the expansion: the forward, then the backward list of the reached segment relaxed in turn |
| `Planner.Search.RebuildChain` | path_planner/src/course/search.cpp:414-422 | the chain of the candidate is returned and exactly its `next` links are repaired; costs, directions and `prev` links are kept |
| `Planner.Search.GeneratePathCandidate` | path_planner/src/course/search.cpp:403-426 | the candidate's cost grows by its connection to the end point; on a strict improvement it becomes the best cost, exactly the chain's `next` links are repaired and the best path is the chain rendered over them; otherwise only the candidate's cost changes |
| `Planner.Search.CandidateStep` | path_planner/src/course/search.cpp:88-91 | the arena, best cost and best path change as a candidate round says, and the invariant holds |
| `Planner.Search.ExpandStep` | path_planner/src/course/search.cpp:93-116 | the node is stamped and the new arena and frontier are its expansion; the invariant holds and fewer nodes are unexpanded |
| `Planner.Search.SearchStep` | path_planner/src/course/search.cpp:83-116 | one round extends the run from the initial round by the round it makes, keeps the invariant, and either expands a node or shrinks the frontier |
| `Planner.Search.SearchLoop` | path_planner/src/course/search.cpp:83-117 | the loop extends the run until the frontier is empty, so it becomes a whole search |
| `Planner.Search.StartSearch` | path_planner/src/course/search.cpp:75-81 | set-up gives the initial round: the initial arena with the start segment's transitions seeded and queued, no best cost; the search invariant holds with nothing expanded and floor 0 |
| `Planner.Search.PerformDijkstraSearch` | path_planner/src/course/search.cpp:73-119 | the search is a whole run from the initial round; the best cost is the least total of its candidates; the best path is the one kept from before when there was no candidate, and otherwise the one rendered by a winning candidate; the result wraps the best path in the appendices |
| `Planner.Search.FindPath` | path_planner/src/course/search.cpp:43-71 | a failed map request or connection gives the empty path and leaves the arena, best cost and best path as they were; on the same segment the path is the two boundary poses between the appendices and the search is skipped; otherwise a whole search run, with the best path between the appendices |
| `Planner.Search.Signature` | path_planner/src/course/search.cpp:652-676 | the start segment's direction symbol, then one symbol per chain node |

## Left out

- The map service, its `waitForExistence` and `call`, and parameter loading are ROS I/O. `FindPath` takes whether the map came as a parameter.
- The collision grid map and its setters are a foreign library. Only the cell loop of `initMaps` is modelled (`ConvertMapData`).
- Appendix search (`findAppendices`, `findAppendix` and the A* search inside them), `findClosestSegment` and `nearestPointTo` are external search and geometry code. `FindPath` takes their outcome as an optional `Connection`. Their null check after dereferencing the segment is not modelled.
- `convertToWorld` and `convertToMap` are coordinate conversions for the grid library.
- Yaw angles, rotation matrices, `atan2`, `cos`, `sin` and `dir / dir.norm()` are floating-point trigonometry. Headings and stub positions stay symbolic, and the model does not capture the division by zero of a zero-length stub direction.
- The Euclidean norm is an uninterpreted non-negative parameter, and real arithmetic is exact. Double-precision rounding is not modelled; `Epsilon` is the double-precision machine epsilon.
- The ordering of the `std::set` frontier by cost alone is not modelled. Under that ordering, distinct nodes of equal cost collide and a cost is changed before the node is found and erased. The frontier is a set of node ids, and `ExtractMin` returns some node of least cost, so ties are not resolved as the set would resolve them.
- Logging (`ROS_INFO`, `ROS_WARN`) is I/O with no effect on results.
- The `?` branch of `signature` cannot occur here, since every node's reached segment is an index.
- Parameters are required to be non-negative (`ValidParams`). The source does not check this, but termination and the search invariant depend on it.
- generatePath is modelled in the function form the source implies: the arena is read as a value, the per-node inputs are gathered first, and then the loop appends. Chain rebuild, the signature walk and seeding work on a copy of the arena that is written back.
- Planner.Search.PerformDijkstraSearch: does not state that the final best path renders the winning candidate's chain in the final arena. Later rounds rewrite `next` links and costs that rendering reads, so the rendering is stated at the time of the candidate (`Winner`, `Candidate`).
- Planner.Search.FindPath: assumes the connected segments are course segments, since the appendix search only picks such segments.
- The signature that `generatePathCandidate` builds for its log message is not computed there; `Signature` models it on its own, and it changes no state.
- `FindPath` does not convert the map: `initMaps` runs before the appendix search, and its cell loop is modelled separately (`ConvertMapData`).
- Utilities.ConvertMapData: requires the grid to hold no more cells than the `w*h` buffer. The source writes past the buffer's end otherwise, which is undefined behaviour.
- A course is required to list each transition in one direction only. In the source, every transition object belongs to exactly one segment list.
