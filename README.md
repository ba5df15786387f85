# A verified model of the world simulation's turn engine

This project models the turn engine of a small grid-world simulation.
Peeps live on the cells of a bounded 3-D grid (movement stays in one Z plane).
Each turn runs the same steps:

- the turn counter advances;
- the occupant of every cell listed picks the action with the highest priority (look around, move or skip) and runs it;
- a peep that moves into another live peep "meets" it. Two peeps of the same gender, both of spawn age, may then spawn a child on a free neighbouring cell;
- a random immigrant may appear at the origin;
- every living peep either ages by one year or dies.

The model is written in Dafny and split by source file:

- `outcomes.dfy`: the error values and the `Option`/`Outcome`/`Result` wrappers that stand in for Go's `error` returns and nil pointers.
- `location.dfy` (module `Locations`): locations, the world size and the bounds check. The check drops the outer line of cells on X and Y and keeps the Z range exact. Also the 8-neighbourhood of a cell, in the order the source's nested loops visit it.
- `dmap.dfy` (module `DoubleMap`): the double map, which is the index from peeps to cells and from cells to peeps.
  - `Dmap` is a class whose two map fields the methods update in place.
  - Its abstract value is the `Bindings` datatype, with one pure transition per update.
  - The lemmas are about the two maps staying mutual inverses.
- `peeps.dfy` (module `Peeps`): the `Peep` class, with its in-place moves, aging and death, plus the one-step aging relation `AgeStep`.
- `population.dfy` (module `Population`): the counts the world's statistics loops compute, defined by recursion on the peep list. It also has lemmas relating them: alive + dead = all, the histogram sums to the alive count, and bounds on the average age.
- `world.dfy` (module `WorldModel`): the `World` class. It holds the peep list, the turn, the settings, the grid index and the moves switch. It carries the statistics loops, occupancy, the free-cell search, meeting and spawning, peep creation, the grid update, `Move` with its rollback, and the icon letter.
- `actions.dfy` (module `Actions`): candidate priorities, selection of the strict maximum, and the look and move effects. Dispatch runs over a list of cells.
- `turn.dfy` (module `Turn`): one turn, combining the action phase, the immigrant and the aging loop.

Randomness enters as parameters:

- a `MoveDraw` per acting cell: the X and Y step choices and the spawn draw of a meeting;
- a birth draw and a gender choice for the immigrant;
- a death draw per peep.

The model then proves what the code decides for every possible draw.

Peep ids are positions in the peep list (`World.Valid` states `peeps[i].id == i`). This stands in for the source's UUIDs: distinct peeps have distinct ids.

The source compares `src == dst` in `UpdateGrid` as pointers. The model compares locations by value.

The source does not keep the grid index a pair of mutual inverses at the world level, and the model does not pretend it does:

- a peep created at an occupied cell overwrites that cell's binding (`NewPeep` binds unconditionally);
- a move onto a dead peep's cell also overwrites that cell's binding.

`DoubleMap.AssignOverBoundLocationBreaksInverse` shows the effect on the maps. `DoubleMap.AssignKeepsInverse` states when `Set` does keep them inverse. What the world does keep is `World.Valid`: ids match positions, every peep has a gender, and the index names only peeps of this world.

## Model

| member | source | states |
|---|---|---|
| Locations.SameAs | location.go:32-39 | Component-wise comparison is exactly equality of locations. |
| Locations.CheckOutsideGrid | location.go:222-234 | Succeeds iff minX+1 ≤ x ≤ maxX−1, minY+1 ≤ y ≤ maxY−1 and minZ ≤ z ≤ maxZ; otherwise fails with the outside-world error. |
| Locations.CheckMovementOutsideGrid | location.go:213-218 | Equals the bounds check of `src + (x, y, z)`, and succeeds iff that target is in the grid. |
| Locations.UnitStepDoesNotWrap | location.go:213-218 | For int32 bounds, a unit step from an in-grid cell stays within int32, so the unbounded sums equal the source's int32 sums there. |
| Locations.LocationNeighbors | location.go:93-108 | The nested loops return exactly `Neighbors(size, l)`: the in-grid cells around `l`, excluding `l`, in x-major then y order. |
| Locations.CandidatesAreAdjacent | location.go:93-108 | The nine cells the loops visit are exactly `l` and the cells adjacent to it in its Z plane. |
| Locations.NeighborsMembers | location.go:93-108 | A cell is a neighbour iff it is adjacent to `l` (same Z, within 1 on X and Y, not `l`) and inside the grid. |
| Locations.NeighborsShape | location.go:93-108 | The neighbour list has no duplicates and at most 8 elements. |
| Locations.InteriorHasEight | location.go:93-108 | A cell at least two cells from the border has exactly 8 neighbours. |
| Locations.CornerHasThree | location.go:93-108 | The corner (minX+1, minY+1) of the usable region has exactly 3 neighbours. |
| Locations.TestWorldNeighbors | location_test.go:135-151 | In the test world (−10..10 on X and Y), the origin has 8 neighbours and the corner (−9, −9) has 3. |
| DoubleMap.AssignBinds | dmap.go:37-43 | After `Set(e, l)`, `e` maps to `l` and `l` maps to `e`. |
| DoubleMap.AssignFrame | dmap.go:37-43 | `Set(e, l)` leaves every other exister's and every other location's entry as it was. |
| DoubleMap.AssignKeepsInverse | dmap.go:37-43 | With neither key bound, `Set` keeps the two maps mutual inverses. |
| DoubleMap.AssignOverBoundLocationBreaksInverse | dmap.go:37-43 | Setting two distinct existers at one location breaks the inverse, so `Set`'s precondition is needed. |
| DoubleMap.RemoveExisterUnbinds | dmap.go:46-53 | `DelByExister(e)` unbinds `e` and the location it was bound to; an unbound `e` changes nothing. |
| DoubleMap.RemoveExisterKeepsInverse | dmap.go:46-53 | `DelByExister` always keeps mutual inverses. |
| DoubleMap.RemoveExisterFrame | dmap.go:46-53 | `DelByExister(e)` leaves every other pair as it was. |
| DoubleMap.RemoveLocationUnbinds | dmap.go:56-63 | `DelByLocation(l)` unbinds `l` and the exister at it; an unbound `l` changes nothing. |
| DoubleMap.RemoveLocationKeepsInverse | dmap.go:56-63 | `DelByLocation` always keeps mutual inverses. |
| DoubleMap.RemoveLocationFrame | dmap.go:56-63 | `DelByLocation(l)` leaves every other pair as it was. |
| DoubleMap.Dmap.constructor | dmap.go:13-18 | A new double map has both maps empty. |
| DoubleMap.Dmap.GetByExister | dmap.go:21-26 | Finds a location iff `e` is bound; under the inverse, that location maps back to `e`. |
| DoubleMap.Dmap.GetByLocation | dmap.go:29-34 | Finds an exister iff `l` is bound. |
| DoubleMap.Dmap.Set | dmap.go:37-43 | The new maps are `Assign(old, e, l)`; both lookups find the pair; the inverse is kept when neither key was bound. |
| DoubleMap.Dmap.DelByExister | dmap.go:46-53 | The new maps are `RemoveExister(old, e)`; `e` and its old location are both unbound; the inverse is kept. |
| DoubleMap.Dmap.DelByLocation | dmap.go:56-63 | The new maps are `RemoveLocation(old, l)`; `l` and its old exister are both unbound; the inverse is kept. |
| DoubleMap.Dmap.AllNonEmptyLocations | dmap.go:66-72 | Returns exactly the bound locations, each once. |
| DoubleMap.AllNonEmptyLocationsExample | dmap_test.go:103-122 | A new map lists no location; after one `Set` it lists exactly that location. |
| Peeps.ChosenGender | peeps.go:34-36 | A requested gender is kept; an empty one is replaced by one of the four genders; the result is never empty. |
| Peeps.AgeStepMonotone | peeps.go:115-126 | One aging step never lowers an age and never revives a peep. A peep is alive afterwards iff it grew one year older, which needs it alive and below `maxAge`. |
| Peeps.AgeOutcome | peeps.go:115-126 | The aging of a live peep is a step `AgeStep` allows. A successful death draw kills a peep older than 0. Without one, the peep survives iff it is below `maxAge`. |
| Peeps.ToLower | location.go:276-277 | An upper-case ASCII letter becomes the lower-case letter at the same position in the alphabet; every other character is kept; the result is never an upper-case letter. |
| Peeps.ToUpper | location.go:278 | A lower-case ASCII letter becomes the upper-case letter at the same position in the alphabet; every other character is kept; the result is never a lower-case letter. |
| Peeps.Peep.constructor | peeps.go:37-42 | A new peep is alive, has age 0, and has the given id, gender and location. |
| Peeps.Peep.SetLocation | peeps.go:62-65 | The location becomes `l`. |
| Peeps.Peep.MoveX | peeps.go:68-71 | Adds `steps` to X; Y and Z are unchanged. |
| Peeps.Peep.MoveY | peeps.go:74-77 | Adds `steps` to Y; X and Z are unchanged. |
| Peeps.Peep.MoveZ | peeps.go:80-85 | Fails with the vertical-move error iff `steps` is nonzero, and never changes the peep. |
| Peeps.Peep.AddAge | peeps.go:98-100 | The age grows by exactly one. |
| Peeps.Peep.Die | peeps.go:103-106 | The peep is dead afterwards. |
| Peeps.Peep.AgeOrDie | peeps.go:115-126 | At or past `maxAge` the peep dies with its age kept. A successful death draw kills a peep older than 0 with its age kept. Otherwise the age grows by one. For a live peep the result is `AgeOutcome`. |
| Population.AliveDeadSum | world.go:136-155 | The alive count plus the dead count is the number of peeps. |
| Population.CountAlivePositive | world.go:136-144 | The alive count is positive iff some peep is alive. |
| Population.HistogramCounts | world.go:158-166 | The histogram has an entry for a gender iff an alive peep has it, and the entry is the number of alive peeps of that gender. |
| Population.HistogramSum | world.go:158-166 | The histogram's values sum to the alive count. |
| Population.SumAgesBound | world.go:194-207 | When every alive age is at most `b`, the integer average age is at most `b`. |
| Population.SumAgesLowerBound | world.go:194-207 | When every alive age is at least `b`, the integer average age is at least `b`. |
| WorldModel.ListContains | world.go:39-46 | True iff `loc` is an element of the list; elements are compared with `SameAs`. |
| WorldModel.World.constructor | world.go:48-60 | A new world has no peeps, turn 0, an empty grid index, and is valid. |
| WorldModel.World.AlivePeeps | world.go:136-144 | The loop's count is the number of alive peeps. |
| WorldModel.World.DeadPeeps | world.go:147-155 | The loop's count is the number of dead peeps. |
| WorldModel.World.PeepGenders | world.go:158-166 | The loop builds the histogram of alive peeps' genders. |
| WorldModel.World.PeepMaxAge | world.go:169-177 | At least every alive peep's age, attained by one of them unless it is 0, and 0 when no peep is alive. |
| WorldModel.World.PeepMinAge | world.go:180-191 | 0 when no peep is alive. Otherwise at most `maxAge` and at most every alive peep's age, and either `maxAge` or attained by an alive peep. |
| WorldModel.World.PeepAvgAge | world.go:194-207 | The integer quotient of the alive peeps' age sum by their count, and 0 when none is alive. |
| WorldModel.World.IsOccupiedLocation | location.go:169-179 | A cell is occupied iff it is bound and its occupant is alive; a dead occupant's cell counts as free. |
| WorldModel.World.OfSpawnAge | location.go:123-126 | The age test of a meeting: a peep is old enough to spawn iff its age has reached `spawnAge` (the definition `SpawnAllowed` and `SameGenderSpawn` use). |
| WorldModel.World.FirstFreeInMeaning | location.go:113-118 | The inner search returns the first unoccupied neighbour, and fails iff all are occupied. |
| WorldModel.World.FirstFreeFails | location.go:111-121 | The search fails iff every neighbour of every given location is occupied. |
| WorldModel.World.FirstFreeFound | location.go:111-121 | On success the search returns a free, in-grid, adjacent neighbour of the first given location that has a free neighbour. |
| WorldModel.World.FindEmptyLocation | location.go:111-121 | The nested loops with early return compute `FirstFree`, and fail with the no-empty-location error exactly when it finds nothing. |
| WorldModel.World.SameGenderSpawn | location.go:129-144 | Exactly one newborn is appended when all of these hold: the genders match, both peeps are of spawn age, a free cell exists and the draw succeeds (and the population cap allows it). It has `left`'s gender, lies at the first free cell and is bound there. Otherwise nothing changes. |
| WorldModel.World.Meet | location.go:159-166 | A meeting has exactly the same-gender spawn's effect. |
| WorldModel.World.NewPeep | peeps.go:28-46 | At the population cap it fails and changes nothing. Otherwise it appends a fresh live newborn with the next id and the chosen gender, and binds it at `location`. |
| WorldModel.World.RandomPeep | world.go:124-133 | With `newPeepMax` peeps alive it fails and creates nothing. Otherwise it succeeds, and creates a newborn at the origin iff the birth draw succeeds and the cap allows it. |
| WorldModel.World.UpdateGrid | location.go:184-210 | `src == dst` rebinds the mover at `src`. A different live occupant at `dst` means a meeting and a location-taken error, with the mover's binding and `dst`'s occupant unchanged. A target outside the grid is an error with nothing changed. Otherwise `src`'s binding is removed and the mover bound at `dst`. |
| WorldModel.World.Bump | location.go:192-198 | A live, different squatter at `dst` means a meeting (the same-gender spawn's effect) and a location-taken error with the squatter's id; the mover's binding and `dst`'s occupant stay as they were. |
| WorldModel.World.Move | location.go:238-265 | A target outside the grid and a nonzero Z are errors that change nothing. Otherwise the grid is updated as `UpdateGrid` does from `src` to the target: a stay rebinds the mover, a free target moves its binding, and a live occupant at the target is a meeting that spawns next to the target (where the mover stands when it meets) and fails. The mover ends at `src + (x, y, z)` on success and back at `src` on any failure. |
| WorldModel.World.Relocate | location.go:258-263 | Once the mover stands at its target: the grid update from `src` (rebind, move or meeting, as `UpdateGrid`), and the mover put back at `src` when it fails. |
| WorldModel.World.StepAxes | location.go:244-255 | The per-axis moves: the location is shifted iff Z is 0, and restored with the vertical-move error otherwise. |
| WorldModel.World.ExisterIcon | location.go:268-279 | The gender's first letter, not upper case below half of `maxAge` and not lower case from then on. |
| WorldModel.ExisterIconExample | location_test.go:118-133 | A red peep shows as 'R' above mid-age and 'r' below it. |
| Actions.LookAction | actions.go:71-83 | The look has priority 10 iff `turn − lookTurn ≥ peepRememberTurns`, and 1 otherwise. |
| Actions.MoveAction | actions.go:86-91 | Moving has a priority strictly between a remembered look and a stale one. |
| Actions.SkipAction | actions.go:94-99 | Skipping does nothing, at a priority no positive priority loses to. |
| Actions.ActionPriority | actions.go:110-130 | Each known name gets its action's priority and effect; an unknown name gets priority 0 and no effect. |
| Actions.CandidatesValues | actions.go:9-12 | The candidates, offered in list order, are move at 5, skip at 0 and look at 10 or 1. |
| Actions.BestAction | actions.go:40-67 | The running strict maximum from 0 picks the first candidate with the highest priority, or nothing when no priority is positive. |
| Actions.ChoiceIsLookOrMove | actions.go:40-67 | In any arrival order of the candidates, the choice is the look iff the last look is stale, and the move otherwise; it is never empty. |
| Actions.OfferedChoice | actions.go:40-67 | The same for the candidates in their listed order. |
| Actions.LookAround | actions.go:103-106 | The peep's look turn becomes the current turn. |
| Actions.LookIsRemembered | actions.go:71-83 | Right after a look the look priority is 1, and `peepRememberTurns` turns later it is 10 again. |
| Actions.BestPeepMove | actions.go:152-160 | The step is in {−1, 0, 1} on X and Y and 0 on Z. |
| Actions.BestPeepMoveCovers | actions.go:152-160 | Every unit step in the plane is drawn by some pair of choices. |
| Actions.MovePeep | actions.go:133-149 | With moves disabled, or for a dead peep, it fails and changes nothing (peeps, grid and location). Otherwise it makes the drawn unit `Move`, with `Move`'s whole effect on the grid, the peep list and the mover's location, and wraps its error. As values (`MoveRecorded`): a target outside the grid changes nothing; a zero step rebinds the mover; a successful step frees the old cell and binds the mover at the target; a bump into another peep at the target is a location-taken error with that peep's id, leaves the mover where it was, and either changes nothing or appends exactly one newborn: a peep of the mover's gender, unknown to the grid before, whose binding at one cell is the grid's only change (`BornBeside`). Every other case appends no peep. New peeps have never looked around. |
| Actions.RunEffect | actions.go:71-99 | Runs the chosen closure: the look records the turn and changes nothing else; the move is `MovePeep`'s effect (also as `MoveRecorded`) and keeps the look turn; the skip changes nothing. Other peeps keep their location and look turn; new peeps have never looked around. |
| Actions.Act | actions.go:32-34 | The occupant's chosen action is the look if its last look is stale and the move otherwise, and it is run: a look changes only the look turn; a move keeps the look turn and changes the grid and the mover's location as `MoveRecorded` says for the draw, with its outcome. The peep list is unchanged except after a bump, which may append one newborn as `BornBeside` says. Other peeps keep their location and look turn; new peeps have never looked around. |
| Actions.ActOn | actions.go:26-35 | An empty cell runs nothing and changes nothing. Otherwise the occupant found in the grid runs the effect chosen for its look turn, and the step records its look turn, location and liveness before, its location after and the move's outcome; the grid is unchanged unless it moved, and then changes as `MoveRecorded` says. Only the occupant changes its look turn (to the current turn, by looking) or its location (to the recorded one); every old peep keeps its age and liveness. The peep list becomes the old list followed by the step's recorded newborns (`step.born`), which are empty unless the move bumped into another peep; new peeps are fresh, alive, of age 0 and have never looked. |
| Actions.DoActions | actions.go:25-37 | `Recorded`: pass `k` found the occupant of the `k`-th cell in the grid the earlier passes left, ran nothing for an empty cell and otherwise the effect chosen for the occupant's look turn, and turned that grid into the next as `StepRecorded` says (a move as `MoveRecorded`). The occupant's look turn is the current turn if it looked in an earlier pass, its look turn at the start otherwise, and 0 for a newborn; a peep of the start moves from where its last move left it and has its liveness from the start. The grids run from the old grid to the new one; every peep ends with the current look turn iff it looked, and every peep of the start ends where its last move left it. The old peeps keep their places in the list and their age and liveness; the list grows at its end by fresh live peeps of age 0, exactly as many as the record's newborns (`Births`). |
| Actions.RecordedAt | actions.go:25-37 | Every pass of a record turned its grid into the next as `StepRecorded` says, and its occupant started from the state the earlier passes left it in (`StepStart`). |
| Actions.TracksStep | actions.go:25-37 | One pass keeps every peep's tracked state: the occupant's look turn becomes the current turn if it looked and its location the recorded one; other peeps are unchanged; newborns start unlooked, alive and of age 0. The occupant's state when its turn came is the one the earlier passes determine. |
| Actions.Passes | actions.go:25-37 | The loop over the cells, one `ActOn` per cell: the record satisfies `Recorded` from the grid before to the grid after, the old peeps keep their list positions, the list grows by fresh peeps exactly as many as the record's newborns, and every peep's final state is the one `Tracks` derives from the record. |
| Actions.ActOnTracked | actions.go:26-35 | One pass of the loop extends the record by one step and one grid, keeps `Tracks`, and grows the peep list by as many peeps as the step has newborns. |
| Actions.BirthsSnoc | actions.go:25-37 | The newborns of a record extended by one pass are the earlier newborns followed by that pass's. |
| Actions.BirthsPerPass | actions.go:25-37 | A record has at most one newborn per pass, and a pass with a newborn is a move that failed because the target cell was taken. |
| Actions.StayPut | actions.go:25-37 | A peep of the start that was dead, or any peep when moves are switched off, ends the passes where it started. |
| Population.CountAliveGrown | world.go:136-144 | A list whose liveness agrees with `flags` on a prefix and is all alive after it has as many alive peeps as `flags` has `true` entries, plus the length of the tail. |
| Turn.NextTurn | world.go:84-103 | The turn grows by one. The actions are recorded as `DoActions` records them, at the new turn, from the peeps' state at the start of the turn and the old grid. They keep the old peeps in place and append exactly as many live newborns as the record holds (`Births`), so the alive count the random peep sees is the old count plus the newborns. Every peep listed after the actions ends the turn with the current look turn if it looked, its old look turn if it was there at the start, and 0 otherwise; every peep of the start ends where its last move left it (`PlaceAfter`; `StayPut`: a dead one where it was). The immigrant is created exactly when the birth draw succeeds and that count is below both `newPeepMax` and `maxPeeps`: it gets the next id and a drawn gender, stands at the origin, has never looked, and is bound at the origin on the grid the actions left; otherwise the grid is the one the actions left. Then each peep alive is aged by `AgeOutcome` with its own draw; dead peeps keep their age and stay dead; newborns and the immigrant age from 0. |
| Turn.CountedActions | world.go:84-87 | The actions as `DoActions` records them, with every peep of the start still listed, the look turns and places `DoActions` states, and a peep list grown by exactly the record's newborns, all alive, so the alive count afterwards is the count before plus the number of newborns. |
| Turn.Advance | world.go:84-103 | The body of a turn at a given turn number: `CountedActions`, then `ArriveAndAge` on the list the actions left, with the look turns and places of the actions kept to the end. |
| Turn.ArriveAndAge | world.go:89-103 | The immigrant arrives at the origin exactly when the birth draw succeeds and the alive count is below both caps, with the next id, a drawn gender and no look yet, bound at the origin; otherwise the grid is unchanged. Then every peep alive ages by `AgeOutcome` with its own draw, dead peeps keep their age and stay dead, and the immigrant ages from 0. No peep listed before moves or changes its look turn. |
| Turn.AgePeeps | world.go:95-103 | Every alive peep is aged by its own death draw; dead peeps keep their age and stay dead; no peep's location or look turn changes. |

## Left out

- Concurrency: the goroutine fan-out, channel and wait group in `bestAction`, and the read/write lock of the double map. Selection is a sequential fold over the candidates, and `ChoiceIsLookOrMove` shows that the arrival order does not change the choice.
- Terminal rendering and input: `Draw`, `DrawGrid`, `ExisterFg`, `ExisterBg` and `ExisterVisuals`. Also the termbox event `select` of `NextTurn`; only its default branch is modelled.
- HTTP serving, `Run`, `Pause`, the metrics updates in `NextTurn`, and the `Show*` output.
- Floating point and `rand`: the spawn, birth and death probabilities, and the log10 death formula, are boolean draws. The gender and step choices of `rand.Intn` are bounded naturals. log10 of age 0 is minus infinity, so a newborn's death draw always fails; the model encodes that.
- UUIDs: replaced by ids equal to list positions.
- `SetNeighbors`, called by `LookAround`: its target is not among the core files. Only the look turn it records is modelled.
- `ExisterFromID`, and the unused `DiffGenderSpawn`, whose call in `Meet` is commented out.
- `LocationExister` and `allLocations`: `DoActions` takes the list of cells to visit as input and looks up each cell's occupant in the grid index.
- `NextTurn` in world.go calls a three-argument `AgeOrDie`. The peeps.go version shown takes two arguments, and the model follows peeps.go.
- Locations.UnitStepDoesNotWrap: the model adds coordinates as mathematical integers, not int32 values with wrap-around. The lemma shows they agree for every move the game makes.
- Peeps.ToLower: ASCII letters only; Go's Unicode case mapping of non-ASCII letters is not modelled.
- Peeps.ToUpper: ASCII letters only, as for `ToLower`.
- WorldModel.World.ExisterIcon: takes the first character of the gender, where Go takes its first byte; they agree on the ASCII gender names. It requires a non-empty gender, where Go would panic on indexing an empty string; every peep of a valid world has one.
- WorldModel.World.Move: requires that the mover belongs to the world, as `UpdateGrid` does; every caller passes one that does.
- Actions.Act: a move is stated as values (`MoveRecorded`). A meeting's newborn is stated as one peep of the mover's gender, unknown to the grid before and bound at one cell; that this cell is the first free neighbour, the newborn's id, the spawn conditions (both of spawn age, the population cap, the spawn draw), the choice of the free cell and the liveness of the peep bumped into are not restated. `MovePeep` and `RunEffect` state them (`PeepMoved`); carrying that heap-level statement past the action choice is beyond the verifier's resource budget.
- Actions.ActOn: states a move as `Act` does.
- Actions.DoActions: states each move as `Act` does. The number of newborns is stated, but not that the list's new tail is exactly the record's newborns in order. A newborn that acts later in the same turn has its look turn (0) and liveness recorded, but not where it was born, and where a newborn stands at the end is not stated.
- Turn.NextTurn: states the actions' moves and newborns as `DoActions` does, so where a newborn of the actions stands at the end of the turn is not stated.
- Turn.CountedActions: states the newborns as `DoActions` does.
- Locations as grid keys: location.go and dmap.go key the grid by `*Location` pointers, while peeps.go keeps a peep's `Location` by value. The model compares every location by value, so two equal locations are the same grid key; pointer identity of locations is not modelled.
- Actions.BestAction: Go would call a nil function when no candidate has positive priority. The model returns `None`, and `OfferedChoice` proves that this never happens for the offered candidates.
- Go's `MoveX`/`MoveY` return an error that is always nil, so `Move`'s rollbacks after them cannot happen; the model's `MoveX`/`MoveY` return nothing.
- Actions.MovePeep: the moves switch is a per-world constant (`allowMoves`) rather than a package global.
- WorldModel.World.SameGenderSpawn: requires that `left` belongs to the world. For a peep of another world, an empty gender would draw a new one. Every caller passes the mover, which belongs to the world.
- WorldModel.World.UpdateGrid: requires that the mover belongs to the world; every caller passes one that does.
- WorldModel.World.Valid: the world-level inverse of the grid index is not an invariant, because the source breaks it (see above).
