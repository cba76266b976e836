# Verified model of the ct-Bot control software

The ct-Bot framework is the firmware of a small robot. This project models its algorithmic cores and proves
what they are for. One group of modules per source file:

| source | modules |
|---|---|
| `bot-logic/behaviour_pathplanning.c` | `WaveField`, `WaveSearch`, `WaveRoom`, `WaveDescent`, `WaveEnds`, `PathPruning`, `PathTrace`, `WavePlanner` |
| `pos_store.c` | `PosStore`, `PosSlots` |
| `bot-logic/bot-logic.c` | `CallForest`, `BotLogic` |
| `bot-logic/behaviour_line_shortest_way.c` | `LineMaze`, `LineTour`, `LineExplorer` |
| `map.c` | `MapAddress`, `MapStore`, `MapCircle`, `MapRatio`, `MapWrap` |
| `bot-2-bot.c` | `Payload`, `PayloadBot` |
| `bot-logic/behaviour_abl.c` | `Abl`, `AblMeaning`, `AblInterpreter` |
| `fifo.c` | `FifoInterleaved`, `ByteFifo` |
| `sensor.c` | `DistSensor` |

`CInt` holds the integer arithmetic of C where its width or rounding matters. A core is written twice: as the
imperative code over its fields (the classes and methods), and as functions and relations on snapshots of
these fields. The methods are proved to do what the functions say, the lemmas prove what the functions mean
against an independent reference: walks, transitive callees, depth-first search, a structured program, a
plain array, a prefix of the data sent.

What the proofs say about the code beyond its documentation:

- The wave ends on every input exactly if the rectangle of used cells lies inside the grid; `max_x` and `max_y`
  are not cut there, and two cells past the last section can keep the wave going for ever (`EndsIffInGrid`).
- The trace back reads in front of the grid exactly if it looks around from a cell of the first row or column
  (`StraysIffOnRim`, `RunStraysIffOnRim`).
- From a wave counter of 127 on the bound of the trace back is negative as an int8: no neighbour is below it, and
  the robot is sent to cell (0, 0) or the trace reads in front of the grid (`HighCounterFails`, `SuccessIsPath`).
- A robot on its target is told that there is no path (`NoPathToOwnCell`); with a hazard on the target the last
  way point is not the target, and may be the middle of cell (0, 0) (`HazardOnTarget`, `HazardExample`).
- `pos_store_create_size` accepts size 0 (`SizeTest`), whose mask becomes 255.
- A call whose target is the caller or above it closes a cycle of callers (`SwitchAcyclic`).
- The search of the line maze is depth-first search exactly if the crossings explored before the first goal are
  nested no deeper than the stack (`SearchIsDepthFirst`); for every stack there is a maze one crossing deeper
  that leaves a way into a dead end on it (`TooDeepForgetsTheWay`).
- The comment on `map_flush_cache` promises that the update cache is written back completely; a changed block
  that is still in the buffer is not written but read again from the file. A field keeps its value exactly if the
  file holds the value last written to it (`FlushCache`); a 5 written over a 0 reads 0 (`WriteFlushRead`). The
  header update saves the block only if the extent changed as well.
- The extent of the map does not cover every saved block (`GrowCovers`).
- A way of more than 65535 fields can count as free although 65536 of them are obstacles (`RatioExact`); one of
  exactly 65536 fields counts as free on every map (`WrappedWayIsFree`, `WrappedWayIsBlocked`).
- The two variants of `world_to_map` differ in front of the map (`WorldToMapVariants`).
- A `fi` consumed by a scan does not pop `if_state` (`UnsteadyThenPart`); `ProgramIsPlayed` says what that makes
  of every bracketed program. `for(256)` is `for(0)`.
- A payload request with size -2 is a success at once (`NegativeSize`); a request for the type equal to the number
  of types is judged by the row behind the table (`TypeTest`).

## Model

| member | source | states |
|---|---|---|
| `WaveField.ReadAfterWrite` | bot-logic/behaviour_pathplanning.c:169-210 | Reading the planning grid gives back what was written there and nothing else changed; writes past the last section are lost. |
| `WaveField.WithinIsWalk` | bot-logic/behaviour_pathplanning.c:280-315 | The distance used as reference is the right one: a cell is within n moves exactly if some walk of at most n orthogonal moves over free cells leads there from the wave start. |
| `WaveField.WalkWithin` | bot-logic/behaviour_pathplanning.c:418-461 | Every cell within n moves is the end of such a walk, which is given. |
| `WaveField.DistanceUnique` | bot-logic/behaviour_pathplanning.c:418-461 | A cell has only one distance. |
| `WaveSearch.SettlesIffInGrid` | bot-logic/behaviour_pathplanning.c:176-182 | A visited cell stops being initial exactly if it lies in the grid: writes past the last section are lost. |
| `WaveSearch.StepShape` | bot-logic/behaviour_pathplanning.c:430-456 | Every turn of the wave loop keeps the queue a rest of the front, the mark and the next front, and drops a well-founded measure - on every grid, also when the queue refuses cells or the 8 bit label wraps. The loop always ends. |
| `WaveSearch.StepBreadth` | bot-logic/behaviour_pathplanning.c:430-456 | Every turn keeps breadth-first order: labels are 2 plus the distance, as an int8, the queue holds exactly the cells at the present and the next distance, and everything nearer is settled. |
| `WaveSearch.CloseFront` | bot-logic/behaviour_pathplanning.c:433-446 | When the mark is met, the next front is exactly the set of cells one move further. |
| `WaveSearch.StepKeepsInvariant` | bot-logic/behaviour_pathplanning.c:430-456 | Shape, breadth-first order and falling measure in one. |
| `WaveSearch.Closure` | bot-logic/behaviour_pathplanning.c:430-456 | When the queue runs empty, nothing lies beyond the last front. |
| `WaveSearch.FinishedIsResult` | bot-logic/behaviour_pathplanning.c:430-468 | When the loop stops without a refused entry and within 252 fronts: every new label is 2 plus the free-cell distance from the target, as an int8, all other cells are as before, and success is reported exactly if the robot's cell lies in the rectangle and next to a cell that can be reached. |
| `WaveSearch.BeginHolds` | bot-logic/behaviour_pathplanning.c:418-428 | The two entries queued before the loop establish the invariant. |
| `WaveRoom.StepRoomy` | bot-logic/behaviour_pathplanning.c:430-456 | If the queue has room for the cells of any two neighbouring distances, no turn of the loop refuses an entry, however many free cells there are. |
| `WaveDescent.StepDescends` | bot-logic/behaviour_pathplanning.c:430-456 | Every turn keeps the labels stepwise: each labelled cell touches one whose label is one smaller, the queue carries the last two labels, and a robot noticed touches the present front - also when the queue refuses cells. |
| `WaveEnds.SoundEnds` | bot-logic/behaviour_pathplanning.c:430-456 | With the rectangle inside the grid the loop ends, whatever the grid and the queue hold. |
| `WaveEnds.StepTrapped` | bot-logic/behaviour_pathplanning.c:430-456 | Once one of two adjacent cells past the last section waits, no initial cell of the grid touches such cells and the robot is out of reach, every turn keeps it so. |
| `WaveEnds.EndlessWave` | bot-logic/behaviour_pathplanning.c:418-456 | Such a wave, started beside the pair, has a non-empty queue after every number of turns. |
| `WaveEnds.EndsIffInGrid` | bot-logic/behaviour_pathplanning.c:230-239 | For a rectangle as set_hazards makes it: the loop ends for every target, robot and grid exactly if the rectangle does not reach past the grid. |
| `WavePlanner.Planner.GetNeighbour` | bot-logic/behaviour_pathplanning.c:283-315 | The method is the visit of one cell, with exactly the stated change of grid, queue and flags. |
| `WavePlanner.Planner.ExpandCell` | bot-logic/behaviour_pathplanning.c:446-455 | The two loops over j and i visit the four neighbours once each, in this order. |
| `WavePlanner.Planner.WaveStep` | bot-logic/behaviour_pathplanning.c:430-456 | The loop body on the masked ring is one step of the wave. |
| `WavePlanner.Planner.RunWave` | bot-logic/behaviour_pathplanning.c:418-468 | The wave loop ends; without a refused entry it has computed the breadth-first result, with room for two neighbouring fronts it refuses none, and whenever it has noticed the robot within 252 fronts the labels are what the trace back needs. |
| `WavePlanner.FreeIsUnlabelled` | bot-logic/behaviour_pathplanning.c:400-416 | On the prepared grid the free cells are those of the rectangle that are neither hazard nor target; the target reads 1 if it is a hazard, otherwise 2. |
| `WavePlanner.Planner.Prepare` | bot-logic/behaviour_pathplanning.c:400-416 | The grid in front of the wave holds 2 at the target, 1 at the hazards of the rectangle, 0 elsewhere. |
| `PathTrace.Predecessor` | bot-logic/behaviour_pathplanning.c:418-461 | After every wave of up to 252 fronts, refused entries or not, each labelled free cell touches a cell whose label is one smaller. |
| `PathTrace.RoundLooks` | bot-logic/behaviour_pathplanning.c:486-540 | A round notices the target exactly if it touches it, and takes the first neighbour with the least label below the bound among those compared up to the target; if there is none, nothing changes. On every grid, from every cell. |
| `PathTrace.RoundPicks` | bot-logic/behaviour_pathplanning.c:486-540 | With 2 at the target: a round picks one of the eight neighbours with the least label below the bound, and notices the target exactly when it picks it. |
| `PathTrace.StraysIffOnRim` | bot-logic/behaviour_pathplanning.c:497-518 | A round reads at a negative coordinate exactly if it looks around from the first row or column; what is found there is arbitrary. |
| `PathTrace.RunStraysIffOnRim` | bot-logic/behaviour_pathplanning.c:480-605 | The whole trace reads outside exactly if one of the cells it looks around from, the robot's or a chosen one, lies in the first row or column. |
| `PathTrace.NextExists` | bot-logic/behaviour_pathplanning.c:480-605 | The descent is complete: as long as the target is not reached, there is a neighbour with a smaller label, and labels bound the number of rounds - for a counter of at most 126 and also after refused entries. |
| `PathTrace.RoundTraces` | bot-logic/behaviour_pathplanning.c:480-605 | A round reads outside the grid, or extends the path to a touching cell with a smaller label and keeps the queued way points drawing it; otherwise it fails, only for a full queue or after 120 rounds, and neither can happen if the label of the robot's front is small enough. |
| `PathTrace.RunTraces` | bot-logic/behaviour_pathplanning.c:480-605 | The whole trace, for a counter of at most 126: unless it reads outside or gives up for these two reasons it ends at the target, and over a rectangle off the first row and column it never reads outside. |
| `PathTrace.EndedIsFound` | bot-logic/behaviour_pathplanning.c:480-605 | At the end the path leads from next to the robot to the target, cell by touching cell, over no hazard, over no cell twice, in at most label-many rounds, and the queued way points draw the middles of its cells in the world. |
| `PathTrace.WayPointIsCentre` | bot-logic/behaviour_pathplanning.c:148-160 | The two conversions fit together: the way point of a cell is its middle, and every point up to 64 mm in front of it and less than 64 mm behind is converted back to this cell. |
| `PathTrace.FirstRoundFinds` | bot-logic/behaviour_pathplanning.c:490-540 | The first round finds a neighbour of the robot exactly up to a counter of 126. |
| `PathTrace.HighCounterFails` | bot-logic/behaviour_pathplanning.c:485-605 | From 127 on, the trace ends at once with the middle of cell (0, 0) as the only way point if the robot touches the target, and otherwise goes on from cell (0, 0) and reads outside the grid. |
| `PathTrace.SuccessIsPath` | bot-logic/behaviour_pathplanning.c:480-605 | A trace that reports success without having read outside has found a path exactly if the counter was at most 126 or the target is cell (0, 0). |
| `PathTrace.HazardOnTarget` | bot-logic/behaviour_pathplanning.c:519-540 | When the target holds 1, a successful trace ends beside it, and its last way point is the best neighbour compared before the target, or the cell chosen before, or cell (0, 0) for a robot beside the target. |
| `PathTrace.HazardExample` | bot-logic/behaviour_pathplanning.c:418-605 | With hazards on the target (10, 10) and on (9, 10) and the robot on (10, 9), wave and trace report success, and the only way point is the middle of cell (0, 0). |
| `PathTrace.NoPathToOwnCell` | bot-logic/behaviour_pathplanning.c:480-605 | A robot that stands on its target is told that there is no path: the whole trace fails, whatever the grid holds. |
| `WavePlanner.Planner.LookRound` | bot-logic/behaviour_pathplanning.c:486-540 | The nested loops with their early exit look at the eight neighbours as specified, also in front of the grid. |
| `WavePlanner.Planner.QueueWayPoint` | bot-logic/behaviour_pathplanning.c:552-585 | Popping and queueing on the store is one pruning step; a full queue is reported and keeps the rest. |
| `WavePlanner.Planner.TraceRound` | bot-logic/behaviour_pathplanning.c:483-604 | The body of the trace-back loop is one round, with its three ways to fail. |
| `WavePlanner.Planner.SearchStackPath` | bot-logic/behaviour_pathplanning.c:480-605 | From every state of the grid the loop ends after less than 120 rounds and is the trace the lemmas are about. |
| `WavePlanner.Planner.PlanPath` | bot-logic/behaviour_pathplanning.c:400-605 | From an empty plan to the queued way points, for any number of free cells: a reported path is a path, its way points the middles of its cells in the world, unless the trace read outside the grid, the counter passed 126 or the target is a hazard; and when two neighbouring fronts fit into the queue and no reachable cell is too far, a path is reported exactly if the robot's cell touches a cell the wave can get to. |
| `PathPruning.SlopesAgree` | bot-logic/behaviour_pathplanning.c:560-562 | On lattice segments equal slopes, as the code computes them in int8_t with 100 for a vertical, mean the same or the opposite direction. |
| `PathPruning.SameDirection` | bot-logic/behaviour_pathplanning.c:560-575 | For a path that visits no cell twice they mean the same direction. |
| `PathPruning.DrawLonger` | bot-logic/behaviour_pathplanning.c:571-575 | Replacing the last way point by the next cell in the same direction draws one cell more and drops none. |
| `PathPruning.AppendDraws` | bot-logic/behaviour_pathplanning.c:558-585 | Pruning preserves meaning: after every append the stored way points draw exactly the full path; first and last points survive. |
| `PathPruning.AppendDrops` | bot-logic/behaviour_pathplanning.c:558-580 | The last way point is dropped exactly if the path goes straight on over it and fewer than three were dropped in a row. |
| `PathPruning.DrawEndsAtLast` | bot-logic/behaviour_pathplanning.c:558-585 | The drawn polyline begins and ends at the first and last way point. |
| `PosStore.MaskedIsModulo` | pos_store.c:235-237 | Masking the ring pointers one past either end is reduction modulo the size. |
| `PosStore.MaskIsModulo` | pos_store.c:235-237 | `x & mask` is `x % (mask + 1)` on 8 bit values for the mask of every size. |
| `PosStore.MaskedIsAnd` | pos_store.c:235-237 | The masking used in the model is the source's `&` on the 8 bit pointer moved past either end. |
| `PosStore.Store.Insert` | pos_store.c:216-243 | Puts a position in front, or answers false exactly if the store is full and then changes nothing. |
| `PosStore.Store.Push` | pos_store.c:251-264 | Appends a position at the back, or answers false exactly if the store is full; pos_store_queue is the same. |
| `PosStore.Store.Pop` | pos_store.c:272-281 | Takes the last position, or answers false exactly if the store is empty. |
| `PosStore.Store.Dequeue` | pos_store.c:289-298 | Takes the first position, or answers false exactly if the store is empty. |
| `PosStore.Store.Top` | pos_store.c:308-319 | Reads the index-th position from the back and keeps it; false exactly if there are fewer. |
| `PosStore.Store.Clear` | pos_store.c:189-198 | Empties the store and keeps its size. |
| `PosSlots.SizeTest` | pos_store.c:69-72 | `size & (size - 1)` is 0 for the powers of two and also for size 0, which the comment above the test does not intend. |
| `PosSlots.CreateIsSound` | pos_store.c:60-131 | Creating a store never gives an owner two slots, leaves the slots of all other owners alone, empties the store, and fails for a valid request with memory exactly if all slots belong to others. |
| `PosSlots.CreateServes` | pos_store.c:60-131 | An owner of NULL and sizes other than 0 and the powers of two up to 64 are refused and change nothing; a valid request fails exactly for a missing slot or missing memory, and otherwise leaves an empty store of the owner. |
| `PosSlots.Table.FromBeh` | pos_store.c:152-160 | The search over the slots finds the first slot of the owner. |
| `PosSlots.Table.CreateSize` | pos_store.c:60-131 | The method on the slot array, with release, search and failure paths, is the specified creation and keeps one slot per owner. |
| `BotLogic.InsertedInOrder` | bot-logic/bot-logic.c:386-421 | Inserting behind all behaviours at least as important keeps the list sorted and free of repetitions. |
| `BotLogic.Logic.Insert` | bot-logic/bot-logic.c:386-421 | The pointer surgery on the linked list inserts exactly there and touches only next pointers; NULL is ignored. |
| `BotLogic.Logic.GetBehaviour` | bot-logic/bot-logic.c:428-438 | Finds the first behaviour with the work function, or NULL. |
| `BotLogic.Logic.IsInCallHierarchy` | bot-logic/bot-logic.c:494-515 | Ends on every forest that is acyclic apart from behaviours entered as their own caller; the answer is positive exactly if the job was called, directly or not, by the given behaviour, and is then the exact number of calls between them. |
| `CallForest.AboveShrinks` | bot-logic/bot-logic.c:494-515 | Going up one call shrinks the set of behaviours above: the measure of all walks. |
| `CallForest.SwitchAcyclic` | bot-logic/bot-logic.c:593-652 | An accepted call keeps the caller links acyclic exactly if the target is neither the caller nor one of the behaviours above it. |
| `CallForest.SwitchSound` | bot-logic/bot-logic.c:593-652 | Under this condition a call keeps the forest sound: links stay acyclic, whoever has a caller is active or has a callee, whoever waits in SUBRUNNING has a callee. Refused calls do, too. |
| `CallForest.SwitchOnFields` | bot-logic/bot-logic.c:593-652 | Behaviour by behaviour: an accepted call leaves the target active with its caller noted, a foreground caller off and waiting, a background caller as it was, a former caller active with a failure, and nobody else changed; a refused call, which is one for no behaviour or for a busy one without override, only tells the caller that it failed. |
| `CallForest.ExitSound` | bot-logic/bot-logic.c:659-675 | Reporting back to the caller keeps the forest sound exactly if it does not tell a caller without further callees that it still waits (state SUBRUNNING). |
| `CallForest.ExitOnFields` | bot-logic/bot-logic.c:659-675 | The behaviour is off and free, its caller is active and holds the lower three bits of the state, nobody else changes. |
| `CallForest.WaitingIsServed` | bot-logic/bot-logic.c:593-675 | Below every behaviour with a callee some behaviour is active, so whoever is suspended will be woken. |
| `CallForest.CascadeExact` | bot-logic/bot-logic.c:522-574 | When the cascade has visited all behaviours, in any order, exactly those below c are gone all of whose leaf callees are active. |
| `CallForest.SoundCascade` | bot-logic/bot-logic.c:522-574 | In a sound forest these are exactly the transitive callees of c. |
| `CallForest.CancelOnFields` | bot-logic/bot-logic.c:522-574 | Whoever is below the caller with only active leaves under it is off, free and marked as cancelled, the caller itself is active and marked, nobody else changes. |
| `CallForest.LeftoverLeaf` | bot-logic/bot-logic.c:522-574 | Whatever below c survives has an inactive leaf under it: the assumption on the leaves is needed. |
| `CallForest.ClimbLevel` | bot-logic/bot-logic.c:534-560 | One turn of the climb removes a behaviour exactly if nobody names it as caller any more, and goes on with its own caller. |
| `CallForest.CancelSound` | bot-logic/bot-logic.c:522-574 | The cascade keeps the forest sound and reactivates c. |
| `CallForest.RunSound` | bot-logic/bot-logic.c:522-675 | Over every run of calls, exits and cascades the forest stays sound, and every suspended behaviour has an active one below it. |
| `CallForest.FreshSound` | bot-logic/bot-logic.c:659-675 | Behaviours nobody has called yet form a sound forest, so runs can start. |
| `BotLogic.Logic.DeactivateCalledBehaviours` | bot-logic/bot-logic.c:522-574 | The triple loop over the linked list clears, deactivates and marks SUBCANCEL exactly the doomed behaviours, leaves all others unchanged and reactivates the caller, for every list order. |
| `BotLogic.Logic.SwitchToBehaviour` | bot-logic/bot-logic.c:593-652 | The method on the list, in all four modes: refused for no behaviour or a busy one without override, which only the caller learns; otherwise the target runs for the caller, who waits or goes on beside it, a former caller goes on with a failure, and nobody else changes. |
| `BotLogic.Logic.ExitBehaviour` | bot-logic/bot-logic.c:659-675 | The behaviour is switched off and freed, its caller goes on with the state cut to its bit field, nobody else changes. |
| `LineTour.WalkIsDriven` | bot-logic/behaviour_line_shortest_way.c:524-557 | The tour of a subtree by always turning left, with whatever is on the stack, is the run of the robot through it. |
| `LineTour.CountedUp` | bot-logic/behaviour_line_shortest_way.c:531-556 | At a crossing the counter takes the arms left, ahead, right in turn and then the way back, with the stack equal to the directions on the present path. |
| `LineTour.ExploreTree` | bot-logic/behaviour_line_shortest_way.c:524-557 | A subtree whose explored part fits on the rest of the stack is toured to its first goal with the way to it pushed, or out again with the stack as it was. |
| `LineTour.OverTree` | bot-logic/behaviour_line_shortest_way.c:249-257 | A subtree whose explored part does not fit leaves too little on the stack, notices a wrong place or passes one unnoticed. |
| `LineTour.NoSecondChance` | bot-logic/behaviour_line_shortest_way.c:524-557 | A place passed unnoticed is not made up for on the second tour from the start. |
| `LineTour.SearchIsDepthFirst` | bot-logic/behaviour_line_shortest_way.c:524-557 | Always turning left and counting 1 to 3 at each crossing is depth-first search - it stops at the first goal with the simple path to it on the stack, or gives up with an empty stack after exploring every arm - exactly if the part explored before the first goal is no deeper than the stack. |
| `LineTour.ExploredDepthMeaning` | bot-logic/behaviour_line_shortest_way.c:524-557 | That is: every crossing explored is named by fewer arms than the stack holds. |
| `LineTour.FirstGoal` | bot-logic/behaviour_line_shortest_way.c:524-557 | Whatever the stack holds, the goal the robot comes to is the first one in depth-first order. |
| `LineMaze.HasGoalMeaning` | bot-logic/behaviour_line_shortest_way.c:20-28 | The reference has a goal exactly if some place of the maze is one. |
| `LineMaze.ExploredComplete` | bot-logic/behaviour_line_shortest_way.c:20-28 | Without a goal every place is explored. |
| `LineMaze.ForwardReplay` | bot-logic/behaviour_line_shortest_way.c:597-637 | Taking the stored directions from the front drives from the start to the goal along exactly this way. |
| `LineMaze.BackwardReplay` | bot-logic/behaviour_line_shortest_way.c:560-596 | Taking them from the back with left and right swapped drives from the goal back to the start. |
| `LineTour.ReplayRoundTrip` | bot-logic/behaviour_line_shortest_way.c:524-637 | The stack holds a way that can be driven to the goal and back after a depth-first search under the same condition, and only then. |
| `LineTour.TooDeepForgetsTheWay` | bot-logic/behaviour_line_shortest_way.c:249-257 | For every size of the stack, a chain of as many left turns in front of a goal straight ahead leaves the robot at the goal with a way into a dead end on the stack. |
| `LineExplorer.Explorer.TurnOnCrossing` | bot-logic/behaviour_line_shortest_way.c:524-637 | The crossing state on the position store decides as specified, while searching and while following, and keeps the last turn made in sidewish. |
| `LineExplorer.Explorer.SearchCrossing` | bot-logic/behaviour_line_shortest_way.c:531-557 | The searching branch: pop, count, push back or not. |
| `LineExplorer.Explorer.FollowCrossing` | bot-logic/behaviour_line_shortest_way.c:558-637 | The following branch, forwards by dequeue and backwards by pop, with the kept value of sidewish. |
| `LineExplorer.Explorer.DriveStoredWay` | bot-logic/behaviour_line_shortest_way.c:720-745 | Driving the stored way keeps the stack and sets the direction in which the following branch takes it. |
| `Abl.ScanSkips` | bot-logic/behaviour_abl.c:482-541 | The forward scans of if and else pass over every block, at any depth that fits int8_t, so they stop at the keyword that belongs to them. |
| `Abl.ScanBackSkips` | bot-logic/behaviour_abl.c:572-611 | The backward scan of endf passes over every block with as many for as endf. |
| `AblMeaning.BackToFor` | bot-logic/behaviour_abl.c:592-609 | So endf finds its own for. |
| `AblMeaning.BlockRuns` | bot-logic/behaviour_abl.c:482-611 | From any state, the flat code of any bracketed block makes the calls of the block as played, leaves if_state as played and arrives behind it with the counters of the outer loops untouched - or, if the block never ends, is still inside after any number of rounds. |
| `AblMeaning.DeepLoopRuns` | bot-logic/behaviour_abl.c:555-582 | A loop nested deeper than FOR_DEPTH runs once and disturbs no outer loop. |
| `AblMeaning.RepeatRuns` | bot-logic/behaviour_abl.c:572-611 | for(n) with n from 1 to 255 runs its body exactly n times. |
| `AblMeaning.ForeverRuns` | bot-logic/behaviour_abl.c:588-591 | for(0) goes on for as many rounds as one likes. |
| `AblMeaning.IfElseRuns` | bot-logic/behaviour_abl.c:482-550 | if, else and fi: the else part runs if the test fails, and also after a then part that leaves an even if_state. |
| `AblMeaning.ProgramIsPlayed` | bot-logic/behaviour_abl.c:482-611 | Every bracketed program within the limits of the scans makes exactly the calls it is played with and then stops; an endless one makes those of as many rounds as one likes. |
| `AblMeaning.SteadyPlays` | bot-logic/behaviour_abl.c:482-550 | If every part before an else keeps the bit the else looks at, a program is played as it is meant. |
| `AblMeaning.ProgramMeaning` | bot-logic/behaviour_abl.c:482-611 | Then a whole flat program makes exactly the calls of the structured one and then stops; an endless one makes those of as many rounds as one likes. |
| `AblMeaning.HaltsIffLeft` | bot-logic/behaviour_abl.c:482-611 | The interpreter stops on a bracketed program exactly if the program as played has an end. |
| `AblMeaning.LeftIsExact` | bot-logic/behaviour_abl.c:482-611 | A program that ends means the same for every number of rounds endless loops are watched. |
| `AblMeaning.UnsteadyThenPart` | bot-logic/behaviour_abl.c:519-550 | Why that is needed: a fi consumed by the scan of an inner if does not pop if_state, and the else part runs although the then part was taken. |
| `AblInterpreter.Interpreter.IfHandler` | bot-logic/behaviour_abl.c:482-514 | The scanning loop of the handler is the specified scan. |
| `AblInterpreter.Interpreter.ElseHandler` | bot-logic/behaviour_abl.c:519-542 | The scanning loop of the handler is the specified scan. |
| `AblInterpreter.Interpreter.ForHandler` | bot-logic/behaviour_abl.c:555-567 | Opens a loop; beyond FOR_DEPTH no counter is written. |
| `AblInterpreter.Interpreter.SeekFor` | bot-logic/behaviour_abl.c:592-609 | The two nested loops with their 8 bit counters are the specified backward scan. |
| `AblInterpreter.Interpreter.EndfHandler` | bot-logic/behaviour_abl.c:572-611 | Counts the innermost loop down, ends it at the last round or goes back to its for; 0 stays 0, and a loop nested too deep only closes. |
| `AblInterpreter.Interpreter.Execute` | bot-logic/behaviour_abl.c:685-716 | One round of the interpreter is one step of the machine the theorems are about. |
| `MapAddress.CellIsAtItsPlace` | map.c:215-249 | Every cell is found where it is stored: block and offset determine the cell. |
| `MapAddress.PlaceHoldsACell` | map.c:215-249 | Every place of the 4608 blocks holds a cell of the map: the addressing is a bijection. |
| `MapAddress.PlaceOfParts` | map.c:228-244 | Block number and offset in closed form; no 16 bit result overflows. |
| `MapAddress.OutsideHasNoBlock` | map.c:215-222 | For every pair of 16 bit coordinates the block is 0xffff exactly outside the map. |
| `MapAddress.CornerOfBlock` | map.c:597-598 | The corner kept with the current block is its first cell. |
| `MapAddress.BlockIsARectangle` | map.c:597-598 | Two cells share a block exactly if they share this corner. |
| `MapAddress.WorldToMapVariants` | map.c:489-512 | The assembler and the C variant of world_to_map agree exactly from -6144 mm upwards and on multiples of 8; up to 7 mm in front of the map the C variant answers cell 0. |
| `MapStore.BufferWrite` | map.c:640-659 | A write into the block buffer changes one cell of the map and no other. |
| `MapStore.SwapKeeps` | map.c:543-622 | Saving a changed block and loading another one changes no cell. |
| `MapStore.DropKeepsIffClean` | map.c:473-479 | Reading the current block again without saving the buffer changes no cell exactly if buffer and file agree. |
| `MapStore.GrowCovers` | map.c:545-560 | The used part only grows and takes in the corner of every saved block; it takes in the whole block exactly if the block does not begin inside it and reach over its far edge. |
| `MapStore.ExtentReadsBack` | map.c:1371-1377 | The extent written into the header is the one read back; the rest of the header is unchanged. |
| `MapStore.SaturateIsClamp` | map.c:736-756 | The 8 bit saturation is the sum kept in [-127, 127]. |
| `MapStore.MapCache.GetSection` | map.c:521-622 | Brings the block of a cell into the buffer, or answers NULL exactly outside the map; no cell of the map changes, and the extent grows only when a changed block is saved. |
| `MapStore.MapCache.AccessField` | map.c:640-659 | Behaves as one two-dimensional array: reads the cell, or sets it and changes no other; outside the map it returns 0 and does nothing. The file changes only when another block is needed and the present one was changed, and a write marks the block as changed. |
| `MapStore.MapCache.UpdateField` | map.c:736-756 | Adds to one cell and stops at -127 and 127; a hole stays a hole, and every other cell stays. |
| `MapStore.MapCache.WriteBack` | map.c:1357-1393 | The header update through the same buffer changes no cell, and afterwards the file holds them all. |
| `MapStore.MapCache.FlushCache` | map.c:445-482 | After a flush the map is what the file holds, cell by cell, which is what it was exactly if the buffer agreed with the file. |
| `MapStore.WriteFlushRead` | map.c:445-482 | Writing a field and flushing loses the write exactly if the file held another value. |
| `MapCircle.OneCell` | map.c:797-808 | The innermost loop meets every cell of the half-open box for the first and only time. |
| `MapCircle.DiscTest` | map.c:797-806 | Inside the box the 8 bit differences do not overflow, and the test is that of the disc. |
| `MapCircle.EndOfRow` | map.c:785-810 | The sections of a row cover the box, also where the truncating division is applied to coordinates in front of the map. |
| `MapCircle.UpdateFieldCircle` | map.c:765-815 | For every circle, the update section by section equals the untiled one: each cell of the disc in the half-open box becomes its saturated sum, holes stay, no other cell changes. |
| `MapRatio.LineStep` | map.c:1072-1126 | The walk's offset and remainder after i steps are quotient and remainder of d / 2 + i * m by d. |
| `MapRatio.LineEnds` | map.c:1072-1126 | The walk begins and ends on the end points of the line. |
| `MapRatio.LineIsConnected` | map.c:1072-1126 | Every step goes one cell along the longer axis and at most one along the other. |
| `MapRatio.QuotaFull` | map.c:1128-1133 | If the number of fields fits 16 bits, the quotient is 255 exactly for a full count. |
| `MapRatio.QuotaIsShare` | map.c:1128-1133 | Within 16 bits the quotient is the share of the count in 255ths, rounded down. |
| `MapRatio.CountIsNumber` | map.c:1072-1126 | What the walk counts is the number of fields in range, each by its step and its place across. |
| `MapRatio.QuotaWraps` | map.c:1128-1133 | If it does not, a count lower by 65536 gives 255, too. |
| `MapRatio.RatioFull` | map.c:1046-1148 | get_ratio is 255 exactly if every cell of the strip is in range, for every map, if the number of fields fits 16 bits. |
| `MapRatio.WayIsThere` | map.c:1174-1190 | The strip of a way leads from the cell of the one world point to that of the other and is as broad as the bot with the margin on either side. |
| `MapRatio.GetRatio` | map.c:1046-1148 | The walk counts the cells in range of the strip modulo 65536 and leaves the map unchanged; for 1 to 65535 fields the answer is their share in 255ths, rounded down, and without fields it is 255. |
| `MapRatio.WayFree` | map.c:1189-1192 | The answer is the ratio of the strip on the map as the flush leaves it; if its fields fit 16 bits, a way is free exactly if no cell of its strip is below -20. |
| `MapWrap.WrappedStrip` | map.c:1046-1148 | For every strip on the map with more than 65535 fields there is a map that gives 255 although 65536 of its fields are obstacles. |
| `MapWrap.RatioExact` | map.c:1128-1133 | 255 means a free strip for every map exactly if the fields of the strip fit 16 bits. |
| `MapWrap.WrappedWayIsFree` | map.c:1128-1132 | A strip of 1024 by 64 cells counts as free on every map. |
| `MapWrap.WrappedWayIsBlocked` | map.c:1128-1132 | Also if every one of its fields is an obstacle. |
| `MapWrap.WrappedWay` | map.c:1174-1192 | Such a strip is the way over 8.192 m with a margin of 196 mm. |
| `Payload.StepSafe` | bot-2-bot.c:327-559 | Every event - a command handled by either bot, a failing read, a stray command of a third bot - keeps the transfer in one of its phases. |
| `Payload.StrayIsIgnored` | bot-2-bot.c:451-459 | Acks and data of other bots change nothing. |
| `Payload.DataStep` | bot-2-bot.c:511-559 | A full window arrives in its place in the buffer and is answered by the next grant. |
| `Payload.LastStep` | bot-2-bot.c:511-559 | The rest, which may be empty, completes the buffer; the callback sees all data. |
| `Payload.GrantStep` | bot-2-bot.c:461-480 | The sender sends a full window or, if less is left, the rest - an empty packet when the size is a multiple of the window. |
| `Payload.Consequences` | bot-2-bot.c:327-559 | In every reachable state: no write past the buffer, its contents are a beginning of the data, the callback ran at most once and saw all of it, success is reported only afterwards, and delivered, travelling and remaining bytes add up to the size. |
| `Payload.TransferIsSafe` | bot-2-bot.c:327-559 | The same over every run from an idle start, for every size and every window from 1 to 255. |
| `Payload.Progress` | bot-2-bot.c:327-559 | Every command handled drops a measure. |
| `Payload.NoDeadlock` | bot-2-bot.c:349-379 | Until the sender returns there is a command to handle. |
| `Payload.EndsAsItShould` | bot-2-bot.c:327-559 | With readable data the transfer ends, and the sender returns 0 exactly if the request was acceptable. |
| `Payload.NegativeSize` | bot-2-bot.c:349-376 | A request with size -2 is reported as a success at once. |
| `Payload.TypeTest` | bot-2-bot.c:391-418 | A request is granted exactly if its type is at most the number of types and its row accepts it, so one row behind the table counts. |
| `PayloadBot.Transfer.SendRequest` | bot-2-bot.c:327-337 | Sets up the transfer and sends the request, or does nothing for the own address. |
| `PayloadBot.Transfer.HandleRequest` | bot-2-bot.c:385-445 | Grants exactly a request of an active type that fits its row to a bot standing still and sets up the buffer, for every type, also behind the table; otherwise it refuses and keeps the rest. |
| `PayloadBot.Transfer.HandleAck` | bot-2-bot.c:451-503 | A granted window or the rest is sent and counted down; a refusal or the end clears the transfer with -1, or -2 when all was sent; other bots' acks change nothing. |
| `PayloadBot.Transfer.HandleData` | bot-2-bot.c:511-559 | The bytes land where the pointer is, or past the end, which is noticed; a short read is refused, the last block runs the callback and is confirmed, any other grants the next window; other bots' data change nothing. |
| `FifoInterleaved.StepKeeps` | fifo.c:67-221 | Every step of producer or consumer, byte by byte, keeps the invariant. |
| `FifoInterleaved.FirstInFirstOut` | fifo.c:67-221 | For every interleaving the bytes got are, in order, the first ones put; the others wait unchanged in their slots. |
| `FifoInterleaved.NoClash` | fifo.c:117-128 | No unread byte is overwritten and no unpublished byte is read. |
| `FifoInterleaved.BeginPutKeeps` | fifo.c:67-84 | A put that finds too little room changes nothing but the overflow flag. |
| `FifoInterleaved.NeverStuck` | fifo.c:117-221 | A call under way always has a next step. |
| `ByteFifo.Appended` | fifo.c:112-131 | The two-phase copy continues the contents and touches none of them. |
| `ByteFifo.Fifo.Put` | fifo.c:67-153 | Appends all bytes, or answers 1 for no data and 2 for too little room and leaves the contents unchanged. |
| `ByteFifo.Fifo.Get` | fifo.c:163-221 | Takes exactly as many of the first bytes as asked for, at most 255. |
| `ByteFifo.Fifo.CopyAround` | fifo.c:112-131 | The wrapping copy in two phases fills the slots in order and no other. |
| `DistSensor.InterpolateFits` | sensor.c:149-156 | Between two entries nothing overflows 16 bits and the result lies between the two distances. |
| `DistSensor.InterpolateIsLinear` | sensor.c:149-156 | The result lies at most on the straight line between two entries and below it by less than one unit and what the slope, kept to a 256th, loses on the way. |
| `DistSensor.InterpolateFalls` | sensor.c:149-156 | Between two entries the distance never rises with the voltage. |
| `DistSensor.RiseFits` | sensor.c:153 | The scaled rise fits 16 bits exactly up to 255; 256 counts as none. |
| `DistSensor.DistanceFalls` | sensor.c:165-210 | Over the whole table the distance never rises with the voltage. |
| `DistSensor.DistanceInRange` | sensor.c:191-207 | Every result is a distance from the lower limit to below the upper one, or the mark for none. |
| `DistSensor.ExactAtEntries` | sensor.c:203-204 | At the voltage of an entry the result is its distance. |
| `DistSensor.Sensor.DistLookup` | sensor.c:165-210 | The split search finds what a full search finds: the lower limit above the first entry, the mark for none from the last one on, and in between the distance on the line through the two entries, or the mark from the upper limit on; the toggle is inverted. |

## Left out

- File system, memory allocation, displays, logging, remote control and the network are inputs or succeed:
  the map file is a sequence of blocks, the channels between bots are ordered and lossless, commands of third
  bots are arbitrary acks and data (from addresses other than 0, which stands for no transfer). Timeouts are not part of this model.
- All floating-point control, odometry and sensor geometry; `set_hazards`: the hazards are an arbitrary set of
  cells.
- `RunWave`: is stated for a rectangle inside the grid; what a rectangle past it does to the loop is
  `EndsIffInGrid`. The labels are followed for 252 fronts, after which the 8 bit counter wraps and labels are no
  longer unique.
- `EndlessWave`: asks that no free cell of the grid touches the cells past it, because with free ones a full
  queue may drop the last cell of the pair and so end the loop.
- `PlanPath`: with success guaranteed only up to the number of cells the queue holds, as every cell of a winding
  path can need its own way point; what a full queue or 120 rounds do is part of `RunTraces`.
- `CreateSize`: does not model which memory a store uses, the caller's or the heap's.
- `Get`: is stated for as many bytes as wait; with `OS_AVAILABLE` the source waits for them, without it it
  delivers stale bytes and the count wraps.
- `bot_behave`: the order in which active behaviours are called needs their work functions.
  `deactivateBehaviour` and `deactivateAllBehaviours` cut links without waking callers and are not operations
  of the runs.
- The line follower is an ideal robot on a tree of crossings with three arms each, as the source's crossings
  are; the variant with `START_SIDEWISH` -1 is not modelled (its branch does not balance its braces).
- `BlockRuns`: is stated for at most 127 nested ifs and 254 loops. Jumps, labels, the text layer (buffer swaps,
  white space, the 512 byte overlap) and ill-bracketed programs are left out; the backward scan needs a line in
  front of the first for.
- `DistLookup`: is stated for calibrated tables of 2 to 255 entries, with strictly falling voltages and
  distances that rise by at most 255.
- `GetRatio`: is stated for coordinates `world_to_map` can produce. `update_occupied`, `set_value_occupied`,
  the averages, the int8 ray walk of `update_sensor_distance`, import and export of maps are left out.
- Concurrent payload transfers are left out.
- `fifo_put_data` with `block` set waits for a running read before it answers 2; the one-byte inline calls are
  the case of length 1.
- The unreachable code behind the return in `fifo_put_data` (discarding old data) is not modelled.
