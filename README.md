# Galton board: simulation driver and series reconstructor

This project models the two halves of a Galton board simulation.

- `galton_board.dfy` (module `GaltonBoard`) is the simulation driver. The
  class `Simulation` holds its state: the ball counter, the deletion log, the
  engine's bodies, the iteration counter, the run state and the dumps written.
  - `CreateParticle` feeds one ball in at the top of the peg grid while fewer
    than 1000 have been fed in. Otherwise it runs the stop check.
  - `DeletionBoundary` scans the bodies in order. It erases every body below
    the exit level, `-Y_RANGE * SPACING + SPACING / 2` (that is, -9.5), and
    logs `[iteration, x, y, z]` for each one.
  - `StopSimulation` pauses the run and dumps the log plus the parameter
    vector when the counter equals the log length.
  - The physics engine is abstract. `EngineStep` moves the bodies to
    positions supplied by the caller and advances the iteration counter.
  - The class invariant `Valid` is kept by every method. It says:
    - every ball fed in is either still among the bodies or logged;
    - the counter never exceeds the total;
    - the bodies are numbered in insertion order;
    - the fixed scenery stays above the exit level;
    - every logged row lies below it;
    - the log is ordered in time: its iterations never decrease from row to
      row, and none is later than the current iteration;
    - the run is paused only once every ball fed in is logged, and then
      exactly one dump has been written, holding the whole log and the
      parameters of the current iteration.
- `plotter.dfy` (module `Plotter`) is the offline reconstructor. It turns the
  log, kept to its `(tick, x)` columns, into cumulative frames on a uniform
  tick grid, in three stages:
  - `CombineCoordinates` groups adjacent entries with equal ticks.
  - `AccumulateData` turns each group into the distinct coordinates seen so
    far.
  - `FillMissingTimesteps` inserts rows at the missing ticks of the grid.

  Each stage is a method with plotter.py's loops. It is proved equal to a
  specification function (`Combine`, `Accumulate`, `Fill`), and the
  properties are lemmas about those functions. `Pipeline` and `RunPipeline`
  compose the three stages as the program's `main` does.

The model follows the code, including these behaviours:

- The reconstructor groups adjacent runs of equal ticks; two runs with the
  same tick that are not adjacent stay apart (`ExampleRuns`).
- The three stages at plotter.py:111-113 map an empty log to `[]` (`Pipeline`).
- When the recorded ticks are non-negative multiples of the interval and
  strictly increase, and the final timestep is at or past the last recorded
  tick, the last recorded row appears twice. The trailing loop resumes from
  the counter the last while loop left, which is then the last recorded tick
  (`FillRepeatsLastRow`, `ReconstructionExample`).
- Filling a sequence that already lies on the grid from tick 0 leaves it
  unchanged when no final timestep is given (`FillOnGrid`). With a final
  timestep at or past the last tick, the duplicate above is appended.
- The termination check runs only from `create_particle`'s else-branch. It
  compares the counter with the log length and nothing else.
- Only column 1 (x) of each logged position reaches the frames, because the
  log is sliced to `data[:, 0:2]`.

## Model

| member | source | states |
|---|---|---|
| Plotter.CombineCoordinates | plotter.py:16-42 | the loop returns exactly `Combine(data)` |
| Plotter.Combine | plotter.py:16-42 | there are no more groups than entries; the output is empty iff the input is empty |
| Plotter.CombineSnoc | plotter.py:21-35 | grouping one more entry joins the open group when its tick matches, else opens a new group |
| Plotter.UngroupCombine | plotter.py:16-42 | spreading the groups back into `(tick, coordinate)` entries gives the input back |
| Plotter.CombineKeepsCoordinates | plotter.py:16-42 | the groups' coordinates, concatenated, are the input's coordinates in order |
| Plotter.CombineWellGrouped | plotter.py:21-40 | each group is non-empty, and adjacent groups have different ticks |
| Plotter.CombineUnique | plotter.py:16-42 | any well-grouped row sequence that spreads back to the input is `Combine`'s result |
| Plotter.ExampleRuns | plotter.py:26-35 | ticks 0, 7, 0 give three groups, so a repeated tick is not merged |
| Plotter.AccumulateData | plotter.py:45-62 | the loops return exactly `Accumulate(data)` |
| Plotter.Accumulate | plotter.py:45-62 | one output row per input row |
| Plotter.AddNewMembers | plotter.py:54-56 | after the inner loop, an element is seen iff it was seen before or occurs in the row |
| Plotter.AddNewDistinct | plotter.py:54-56 | the inner loop never adds a duplicate |
| Plotter.SeenAfterDistinct | plotter.py:49-56 | the seen list is duplicate-free after every row |
| Plotter.SeenAfterMembers | plotter.py:49-56 | after m rows, an element is seen iff it occurs in one of those rows |
| Plotter.AccumulateGrows | plotter.py:49-60 | every accumulated list, the last one included, is duplicate-free, and each is a prefix of the next one |
| Plotter.AccumulateMembers | plotter.py:49-60 | output row i holds x iff x occurs in some input row j <= i |
| Plotter.AddNewDedup | plotter.py:54-56 | the inner loop, started from the repeat-free form of a list, gives the repeat-free form of that list followed by the row's elements |
| Plotter.SeenAfterDedup | plotter.py:49-56 | after m rows the seen list is the repeat-free form (first occurrences kept, in order) of those rows' elements concatenated |
| Plotter.AccumulateFirstSeen | plotter.py:49-60 | output row i is input row i's tick with the elements of rows 0..i in order of first occurrence, each once |
| Plotter.AccumulateGrowing | plotter.py:45-62 | on grouped input, accumulated lists never shrink and the first is non-empty |
| Plotter.EmitWhileBelow | plotter.py:73-96 | each of the three while loops (lines 73-75, 85-87 and 94-96) appends the ramp `from, from + I, ...` below the bound and leaves the counter at the ramp's end |
| Plotter.FillMissingTimesteps | plotter.py:65-98 | the method returns exactly `Fill(...)` for every positive interval |
| Plotter.Fill | plotter.py:65-98 | the output is empty iff the input is empty |
| Plotter.RampAt | plotter.py:73-75 | row k of a loop's output has tick `from + k * I`, lies below the bound and carries the loop's elements |
| Plotter.RampEndAfterRamp | plotter.py:85-87 | the counter a loop leaves is its start plus one interval per emitted row |
| Plotter.FillKeepsRow | plotter.py:77-90 | every input row appears unchanged at its position in the output |
| Plotter.FillKeepsRows | plotter.py:77-90 | input rows keep their order in the output |
| Plotter.FillLeading | plotter.py:72-75 | every row before the first input row has tick `k * I` below the first tick and holds only the start value |
| Plotter.FillLeadingReaches | plotter.py:73-75 | the leading rows run up to the first tick: their count times `I` is at least the first tick, so no grid tick below it is skipped |
| Plotter.FillGap | plotter.py:81-90 | every row between input rows i and i+1 copies row i's elements at a tick strictly between their ticks |
| Plotter.FillGapReaches | plotter.py:83-88 | the gap rows sit right between input rows i and i+1, and they run up to row i+1's tick, so no grid tick between the two is skipped |
| Plotter.FillTrailing | plotter.py:92-96 | with no final timestep nothing follows the last input row; otherwise every trailing row copies the last row's elements at a tick between the last tick and the final timestep, and the rows go on until the next tick would pass the final timestep |
| Plotter.FillRepeatsLastRow | plotter.py:83-96 | with ticks that are non-negative multiples of the interval and strictly increase, and a final timestep at or past the last tick, the last input row is emitted twice in a row |
| Plotter.FillOnGrid | plotter.py:65-98 | an on-grid input starting at tick 0 comes back unchanged when no final timestep is given |
| Plotter.FillGrowing | plotter.py:65-98 | when the input's frame sizes never drop and its first row is non-empty, the filled frame sizes never drop either |
| Plotter.Pipeline | plotter.py:111-113 | the three stages composed give an empty result iff the log is empty |
| Plotter.RunPipeline | plotter.py:111-113 | running the three methods in turn returns exactly `Pipeline(...)` |
| Plotter.PipelineGrowing | plotter.py:111-113 | reconstructed frames never shrink |
| Plotter.ExampleCombine | plotter.py:16-42 | a concrete log groups as expected |
| Plotter.ExampleAccumulate | plotter.py:45-62 | concrete groups accumulate as expected |
| Plotter.ExampleFill | plotter.py:65-98 | ticks 0 and 50000 with interval 50000 and final 100000 give 0, 50000, 50000, 100000 |
| Plotter.ReconstructionExample | plotter.py:111-113 | the whole pipeline on a three-entry log gives the four frames above |
| GaltonBoard.Simulation.constructor | galton_board.py:19-31 | a board holding only its scenery, with counter 0, empty log, running, nothing dumped |
| GaltonBoard.Simulation.CreateParticle | galton_board.py:34-46 | on a running board, below the cap: one ball appended, counter +1, spawned at `x` in `[mid - SPACING/4, mid + SPACING/4)`, `y = SPACING`, `z = 0`, `zXY` blocked, nothing else changed; at the cap: no body added, counter unchanged, and exactly the stop check's effect; a pause here means every ball is logged and none is left |
| GaltonBoard.Simulation.DeletionBoundary | galton_board.py:50-56 | the bodies become the survivors of the scan in order; the log becomes the old log plus one row per removed body in scan order; nothing else changes; on a paused board nothing is logged, so the single dump still holds the whole log |
| GaltonBoard.Simulation.EraseExited | galton_board.py:53-56 | the loop that erases while it scans leaves exactly the survivors in order and appends exactly the exit rows, changing nothing else |
| GaltonBoard.Simulation.StopSimulation | galton_board.py:60-63 | on a running board: pauses and dumps the log with the parameters iff counter == log length, and otherwise changes nothing; after a pause no ball remains |
| GaltonBoard.Simulation.EngineStep | galton_board.py:84 | an engine step moves the bodies, keeps the scenery still, advances the iteration, and keeps the invariant |
| GaltonBoard.KeptMembers | galton_board.py:53-56 | a body survives the scan iff it was there and is not below the exit level |
| GaltonBoard.KeptIdsIncreasing | galton_board.py:53-56 | survivors keep their relative order |
| GaltonBoard.ScanCount | galton_board.py:53-56 | survivors plus logged rows equal the bodies scanned: one row per removed body |
| GaltonBoard.LoggedAt | galton_board.py:53-55 | logged row k is `[iteration, x, y, z]` of the body removed after exactly k others, so rows come one per removed body in scan order |
| GaltonBoard.LoggedBelow | galton_board.py:54-55 | every logged row lies below the exit level and carries the scan's iteration |
| GaltonBoard.ScanBalls | galton_board.py:53-56 | with the scenery above the exit level, balls before the scan = balls after + rows logged |
| GaltonBoard.ScanIdempotent | galton_board.py:53-56 | a second scan with no engine step between removes and logs nothing |
| GaltonBoard.EraseScanned | galton_board.py:56 | erasing the scanned body's id removes exactly that body, because ids are unique |
| GaltonBoard.ScanKeeps | galton_board.py:53-56 | the survivors keep ordered ids below `nextId`, surviving scenery stays above the exit level, balls before the scan equal balls after plus rows logged, and every logged row lies below the exit level |
| GaltonBoard.AppendBall | galton_board.py:38-44 | appending a fresh ball adds exactly one ball and keeps ids ordered |
| GaltonBoard.NoBalls | galton_board.py:60-63 | no ball remains iff every remaining body is fixed scenery |
| GaltonBoard.LogOrderedAppend | galton_board.py:53-55 | appending rows that all carry the current iteration keeps the log ordered in time, so the log stays sorted by iteration as the reconstructor expects |
| GaltonBoard.NothingExits | galton_board.py:53-56 | with the scenery above the exit level and no ball left, a scan logs nothing |
| GaltonBoard.MoveKeeps | galton_board.py:84 | moving bodies changes neither ids nor the ball count |

## Left out

- `load_data` and the `np.save` calls of `dump_deleted_particle_coors` are file I/O. A dump is modelled as appending the log and the parameters to `dumps`.
- The `os.makedirs` calls are file I/O and are not modelled.
- The histogram binning and the animation in `main` are plotting over floating point and are not modelled.
- The construction of the peg grid and the walls and `aabbExtrema` are engine setup. The constructor takes the resulting scenery and `x_min`, `x_max` as parameters.
- The engine's physics (collisions, gravity, damping, time step) is not modelled. `EngineStep` takes the new positions as input.
- `PyRunner` scheduling (every 50000 and every 10000 iterations) is not modelled. The methods may be called in any order.
- `np.random.uniform` is modelled as a nondeterministic choice in `[low, high)`.
- Positions are `real`, not floating point. Ticks and the final timestep are integers, although the saved arrays hold them as floats.
- The log's y and z columns are dropped before reconstruction. `Entry` keeps only the tick and x.
- Body ids are not reused after an erase; the model numbers new bodies past every id ever used.
- Plotter.Accumulate: its own contract states only the length; each row's tick and contents are stated by `AccumulateFirstSeen`, `AccumulateMembers` and `AccumulateGrows`.
- Plotter.FillMissingTimesteps: requires a positive interval. For `timestep_interval <= 0`, fill_missing_timesteps (plotter.py:73, 85, 94) never ends once a loop condition holds, and a non-terminating run is not modelled.
- Plotter.Fill: its own contract states only emptiness; the row-by-row content is stated by the `Fill*` lemmas.
- GaltonBoard.Simulation.StopSimulation: callable only on a running board, like `CreateParticle`, its only caller, because `O.pause()` stops the engine loop that runs the `create_particle` callback. Resuming a paused run is not modelled.
