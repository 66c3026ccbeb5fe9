# Trace simulator: tower layout, user walks and occupancy

This project is a Dafny model of the trace-generation core of `tracer/simulator.py`.
That file holds two simulators of mobile users moving between base stations ("towers").

- `TraceSimulator` does four things in order:
  1. It lays out the towers.
  2. It takes a transition kernel built from them.
  3. It walks every user through `number_cycles` cycles. Cycle 0 picks a tower uniformly. Cycle 1 samples from the kernel row of the first tower. Every later cycle samples from the kernel row of the tower nearest to a point extrapolated from the last two positions.
  4. It counts how many users each tower holds at each cycle.
- `MobilitySimulator` takes user positions from an external mobility model. It swaps the cycle and user axes and maps every position to its nearest tower. It then repeats the walk `repeat` times along the cycle axis and counts the same way.

The model is split into modules:

- `Arithmetic` (`arithmetic.dfy`): monotone multiplication and unique quotient and remainder. The grid's flattened indices and the tiling's wrapped indices both rest on these facts.
- `Geometry` (`geometry.dfy`): the grid policy and its layout.
  - `step = ceil(sqrt(n))`, and the tower count becomes `step * step`.
  - The towers are the padded `np.mgrid` mesh, flattened in C order.
  - The nearest-tower query is an abstract `NearestTower` oracle.
- `Matrices` (`matrices.dfy`): `swapaxes`/`.T` as `Transpose`, and `np.tile` along the last axis as `TileRow`/`Tile`.
- `Aggregation` (`aggregation.dfy`): `generate_aggregate_data`. It is shared by both simulators, whose code for it is identical.
- `TraceSimulation` (`trace_simulator.dfy`) has two parts:
  - the walk as a specification function `UserTrace`;
  - the class `TraceSimulator`, whose methods run the source's loops. `GenerateWeightedUserTrace` keeps the sliding direction window.
- `MobilitySimulation` (`mobility_simulator.dfy`): `generate_traces` as a function and the class `MobilitySimulator`.

Randomness is a parameter:

- A `Sampler` is a function of the draw `Draw(user, cycle)`, the population size and the weights handed to `np.random.choice`. The weights are `Uniform` or a kernel row.
- All a sampler must do is return one of the towers (`SamplerInRange`).
- The random layout `np.random.rand(n, 2)` is the parameter `randomPoints`.
- The kernel is `buildKernel(towers)`, taken to give one row per tower.
- The tower manager's `get_new_point` is a `Predictor`, and `get_nearest_tower` is a `NearestTower` that returns a tower index.

Coordinates are `real`. The grid positions are the exact rationals that the float code approximates.

How the code behaves at its edges:

- The grid rounds the count up to the next square. Ten towers become sixteen: `Geometry.TenTowersBecomeSixteen` proves it.
- The code validates no configuration. With no towers, `TraceSimulator.generate` fails when the kernel construction takes the maximum of an empty distance matrix (tracer/simulator.py:88). The model reports this as `TraceSimulation.Status.NoTowers` and changes nothing after the layout.
- With no cycles, `MobilitySimulator.generate_traces` stacks no snapshots. The result is a one-dimensional empty array, and `swapaxes(0, 1)` raises numpy's `AxisError` (tracer/simulator.py:211-215). The model reports this as `MobilitySimulation.Status.NoCycles`. The layout is done by then, and nothing after it changes.

## Model

| member | source | states |
|---|---|---|
| `Geometry.CeilSqrt` | tracer/simulator.py:68 | the grid side `step` is `ceil(sqrt(n))`: `n <= step*step` and `(step-1)*(step-1) < n` |
| `Geometry.CeilSqrtFrom` | tracer/simulator.py:68 | counting up from any `s` below the root ends at the least `step >= s` whose square reaches `n` |
| `Geometry.ResolvedCount` | tracer/simulator.py:68-71 | the tower count after the grid policy is a perfect square and at least the requested count |
| `Geometry.ResolvedCountIsSmallestSquare` | tracer/simulator.py:68-73 | the resolved tower count is a perfect square, at least `n`, not above any square that is at least `n`, and equals `n` exactly when `n` is a perfect square |
| `Geometry.TenTowersBecomeSixteen` | tracer/simulator.py:68-73 | 10 requested towers resolve to `step = 4` and 16 towers; 9 stays 9 |
| `Geometry.MgridAxis` | tracer/simulator.py:75-76 | `np.mgrid[0:stop:num*1j]` along one axis has `num` values; it starts at 0 and, with more than one value, ends at `stop` |
| `Geometry.MgridAxisEvenlySpaced` | tracer/simulator.py:76 | neighbouring axis values are `stop / (num - 1)` apart |
| `Geometry.MeshPoint` | tracer/simulator.py:76-80 | entry `k` of the raveled, padded mesh is the centre of cell `(k div step, k mod step)` |
| `Geometry.GridTowers` | tracer/simulator.py:75-80 | the grid layout has exactly `step*step` towers |
| `Geometry.GridTowerAt` | tracer/simulator.py:75-80 | tower `k` is at `((2(k div step)+1)/(2 step), (2(k mod step)+1)/(2 step))`, the centre of its cell |
| `Geometry.GridCellAt` | tracer/simulator.py:76-78 | C-order flattening: cell `(i, j)` of the mesh is tower `i*step + j` |
| `Geometry.GridTowersInside` | tracer/simulator.py:75-80 | every grid tower lies strictly inside the unit square |
| `Geometry.GridTowersDistinct` | tracer/simulator.py:75-80 | distinct tower indices are at distinct positions |
| `Matrices.Transpose` | tracer/simulator.py:215 | swapping the axes of a `rows x width` matrix gives a `width x rows` matrix |
| `Matrices.TransposeTwice` | tracer/simulator.py:170 | swapping the axes twice gives back the matrix |
| `Matrices.TileRow` | tracer/simulator.py:227 | a row tiled `reps` times has `len(row) * reps` entries |
| `Matrices.TileRowAt` | tracer/simulator.py:227 | entry `k` of a tiled row is entry `k mod len(row)` of the row |
| `Matrices.Tile` | tracer/simulator.py:227 | tiling keeps the number of rows and multiplies each row's length by `reps` |
| `Matrices.TileAt` | tracer/simulator.py:227 | entry `(i, k)` of a tiled matrix is entry `(i, k mod width)` of the original |
| `Aggregation.ColumnCount` | tracer/simulator.py:168 | the count of a tower in one column never exceeds the number of rows |
| `Aggregation.ColumnCountIsUsers` | tracer/simulator.py:168 | the column count equals the size of the set of users at that tower in that cycle |
| `Aggregation.AggregateData` | tracer/simulator.py:163-170 | the occupancy matrix has one row per cycle and one column per tower |
| `Aggregation.AggregateDataAt` | tracer/simulator.py:163-170 | entry `(c, t)` is the number of users `u` with `traces[u][c] == t`, and at most the number of users |
| `Aggregation.AggregateRowSum` | tracer/simulator.py:229-236 | when every entry names a tower, each cycle's row sums to the number of users |
| `TraceSimulation.RecentPositions` | tracer/simulator.py:140-154 | the direction history holds one position after one cycle and two after any later cycle |
| `TraceSimulation.NextSource` | tracer/simulator.py:136-152 | the first cycle samples from all towers and every later one from a kernel row. That row names a tower when the nearest-tower lookup does |
| `TraceSimulation.UserTrace` | tracer/simulator.py:130-156 | a user's walk has one entry per cycle, each a tower index in `[0, number_towers)` |
| `TraceSimulation.UserTracePrefix` | tracer/simulator.py:135-155 | the walk only appends: the first `c` cycles of a longer walk are the walk of `c` cycles |
| `TraceSimulation.SamplingRule` | tracer/simulator.py:136-152 | cycle 0 draws uniformly; cycle 1 draws from the kernel row of `trace[0]`; cycle `c >= 2` draws from the row of `nearest(predict([pos(trace[c-2]), pos(trace[c-1])]))` |
| `TraceSimulation.UserTraceOwnDraws` | tracer/simulator.py:158-161 | a user's walk depends only on that user's own draws |
| `TraceSimulation.TraceMatrix` | tracer/simulator.py:158-161 | the trace matrix has `number_users` rows of `number_cycles` tower indices each |
| `TraceSimulation.TraceRowsIndependent` | tracer/simulator.py:158-161 | two samplers that agree on user `u`'s draws give user `u` the same row: no state is shared between users |
| `TraceSimulation.TraceSimulator.constructor` | tracer/simulator.py:26-54 | stores the tower, user and cycle counts and the layout choice, with the defaults 100, 100, 24 and the grid; no towers or results yet |
| `TraceSimulation.TraceSimulator.GenerateWeightedUserTrace` | tracer/simulator.py:130-156 | the loop appends one tower per cycle while sliding the direction window; its result is `UserTrace`; the final window holds the positions of the last two towers |
| `TraceSimulation.TraceSimulator.GenerateWeightedUsersTraces` | tracer/simulator.py:125-161 | one independent walk per user, giving the trace matrix |
| `TraceSimulation.TraceSimulator.Generate` | tracer/simulator.py:61-99 | replaces the tower count by `step*step` for the grid and keeps it for the random layout; sets the towers, the kernel, the traces and the occupancy matrix; reports whether the count changed, or that no tower exists |
| `MobilitySimulation.GenerateTraces` | tracer/simulator.py:209-215 | fails with `AxisError` exactly when there is no cycle; otherwise the transpose of the snapshots: `paths[u][c] == snapshots[c][u]`, `number_users x number_cycles` |
| `MobilitySimulation.GenerateTracesUndone` | tracer/simulator.py:209-215 | swapping the paths back gives the snapshots of the cycles |
| `MobilitySimulation.NearestTowers` | tracer/simulator.py:225-226 | one tower per point of a path, the nearest one, each naming a tower when the lookup does |
| `MobilitySimulation.MobilitySimulator.constructor` | tracer/simulator.py:176-202 | stores the counts, `repeat` and the layout choice, with the defaults 100 users, 24 cycles, `repeat` 1 and the grid; no towers or results yet |
| `MobilitySimulation.MobilitySimulator.GenerateTowerTraces` | tracer/simulator.py:217-227 | user `u`'s tower trace has `len(path) * repeat` entries; entry `k` is the nearest tower to point `k mod len(path)` of the path; entries are tower indices |
| `MobilitySimulation.MobilitySimulator.Generate` | tracer/simulator.py:238-264 | same layout resolution as `TraceSimulator`; with no cycle reports `NoCycles` and leaves the paths, traces and occupancy as they were; otherwise traces are `number_users x (number_cycles * repeat)`, with `traces[u][k]` the nearest tower to `snapshots[k mod number_cycles][u]`; occupancy is aggregated over those columns |

## Left out

- Kernel construction (`generate_probabilities`, tracer/simulator.py:101-123) is left out. It is floating point (powers, `xamtfos`, `softmax`, the `max()/2` offset), and `tracer.utils` is not part of this model. The kernel is the opaque result of `buildKernel`. Configurations naming an unknown `method` are not distinguished.
- Random draws (`np.random.choice`, `np.random.rand`) are parameters. Distributions and frequencies are not modelled; the only property used is that a draw returns one of the towers.
- The numpy global random stream is modelled as a function of (user, cycle). The order in which draws are consumed from one stream is not modelled.
- `TowersManager` (distances, `get_nearest_tower`, `get_new_point` with velocity friction) is not part of this model. It is float geometry, so it is only present as the `NearestTower` and `Predictor` oracles. `self.distances` and `self.towers_manager` are not stored.
- The pymobility models (`MOBILITY_MODELS`, `next(self.model)`) are external generators of float positions. Their output is the `snapshots` parameter. How the generator's own state advances between calls is not modelled.
- Timing, `self.print` and the `verbose` flag are I/O with no effect on results. The always-printed grid warning is the `countChanged` result instead of a message.
- Constructor parameters used only by the parts left out are not fields: `method`, `expander`, `sigma`, `distance_power`, `vel_friction`, `velocity`, `wait_time_max` and `mobility_model`.
- Counts are `nat`. The behaviour of negative counts (`np.sqrt` of a negative number, an empty `range`) is not modelled.
- `Geometry.CeilSqrt`: the ceiling of the square root is exact. Float `np.sqrt` could round differently for counts too large for a double to represent their roots exactly.
- With zero users, numpy collapses `aggregated_data` to a one-dimensional vector of zeros. The model gives `number_cycles` rows of zeros instead.
- `MobilitySimulation.MobilitySimulator.Generate`: with zero towers the tower manager's behaviour is unknown, because it is not part of this model. Nothing is then said about the range of the trace entries.
- `MobilitySimulator.generate_aggregate_data`'s docstring promises `number_cycles` rows. The code produces `number_cycles * repeat` rows, and the model follows the code.
- Update in place of numpy arrays (`+=` on the towers, `np.copy` of a snapshot) is modelled as whole-value assignment. No aliasing is involved.
