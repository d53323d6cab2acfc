# Hoffman game: a Dafny model of the lattice movement simulation

This project models the simulation core of `HoffmanGame` in `game.py`. Agents
live on a `dim × dim` torus. The world state is:

- a label matrix `mat`, where 0 is an empty cell and 1 is a human;
- a parallel stasis matrix `P`;
- an ordered list `agents` of `(row, col)` positions;
- three population counters `c_man`, `c_machine` and `c_ai`.

The model covers four operations:

- `__init__` builds the empty state (`Game.New`).
- `_initialize_world` visits every cell in row-major order and places a human on it when the random draw says so (`Init.InitializeWorld`).
- `_move_agent` moves one agent. It tries the four wrap-around neighbours of the agent's cell in a shuffled order and steps onto the first empty one, carrying the label and the stasis value. If no neighbour is empty, nothing changes (`Movement.Move`).
- `run_simulation` runs the tick loop. Each tick shuffles the agent list, evaluates the birth/death hook and moves every agent index once, in order (`Simulation.Tick`, `Simulation.Simulate`, `Simulation.RunSimulation`).

Randomness is a parameter, so every property holds for every outcome of the
random source:

- The draw `random.uniform(0, 1) < p_dense` for cell `(i, j)` becomes `decisions[i][j]`, a `dim × dim` matrix of booleans.
- Each `random.shuffle` becomes an index permutation (`Permutations.IsPermutation`). The shuffle of the four candidates in `_move_agent` is a permutation of 4. The shuffle of `agents` at the start of a tick is a permutation of `len(agents)`. `Simulation.TickDraw` holds all the shuffles of one tick.

Modules: `Outcomes` (Option, Result), `Grid` (matrices and single-cell
writes), `Torus` (the four candidates), `Permutations` (shuffles), `Game`
(the world state and its consistency invariant), `Init`, `Movement` and
`Simulation`.

The consistency invariant is `Game.Consistent`. It says:

- every agent stands on a non-empty cell;
- no two agents share a cell;
- the number of non-empty cells equals `len(agents)`;
- every empty cell has stasis 0.

Modelling notes:

- Python's `%` with a positive divisor is floor modulo. For a positive divisor it agrees with Dafny's Euclidean `%`. A move only happens when an agent exists, and then `dim > 0`.
- `dim` is an `int`. A negative `dim` gives empty matrices, as `range(dim)` does.
- `_move_agent` writes in the source's order: label to the destination, then the source cleared; stasis to the destination, then the source cleared. When the destination equals the source, the cell ends up cleared. This can only happen when `dim == 1` and the agent stands on an empty cell, which a consistent world rules out.
- The hook condition `t > 0 and t % birth_death_interval == 0` is evaluated even though the hook body is empty. With an interval of 0 and `t > 0` it raises `ZeroDivisionError`. The model returns `Failure(ZeroDivision)` in that case.

## Model

| member | source | states |
|---|---|---|
| Grid.Set | game.py:44-47 | A single-cell write changes only the addressed cell. The matrix shape and every other cell stay as they were. |
| Grid.SetContents | game.py:44-47 | After a single-cell write, the matrix's multiset of values has lost the old value and gained the new one. The cell count is unchanged. |
| Grid.SetOccupied | game.py:44-47 | A single-cell write changes the number of non-empty cells by the new value's weight minus the old value's weight. |
| Grid.MoveValueContents | game.py:44-47 | Copying a cell's value onto a cell that held `z`, then writing `z` into the source, leaves the multiset of values unchanged. |
| Grid.EmptyMatrix | game.py:16-17 | A matrix whose entries are all 0 has no occupied cell. |
| Torus.WrapStep | game.py:38-39 | `(a + 1) % dim` is 0 at the last index and `a + 1` otherwise. `(a - 1) % dim` is `dim - 1` at 0 and `a - 1` otherwise. |
| Torus.Neighbors | game.py:37-40 | Each of the four candidates lies on the grid. Each differs from the agent's cell by one cyclic step in one coordinate and agrees in the other. |
| Torus.NeighborsComplete | game.py:37-40 | Every grid cell adjacent to the agent's cell on the torus is one of the four candidates. |
| Torus.WrapAround | game.py:38-39 | From row 0, "up" is row `dim - 1`. From the last row, "down" is row 0. Columns wrap the same way. |
| Torus.NeighborsLeaveCell | game.py:37-40 | When `dim >= 2`, no candidate is the agent's own cell. |
| Torus.SideTwoNeighbors | game.py:38-39 | When `dim == 2`, "up" and "down" are the same cell, the other cell of the column. "Left" and "right" are the other cell of the row. |
| Torus.SingleCellNeighbors | game.py:38-39 | When `dim == 1`, every candidate is the agent's own cell. |
| Permutations.PermuteMultiset | game.py:41 | A shuffle keeps the multiset of the list's entries. Nothing is added, lost or duplicated. |
| Permutations.PermuteDistinct | game.py:57 | Shuffling a list without repeats gives a list without repeats. |
| Game.New | game.py:16-22 | The fresh state has all cells empty, all stasis 0, no agents and zero counters, and it is consistent. |
| Init.Mark | game.py:29-32 | Placing a human sets label 1 and stasis 1 on that cell and appends its position to `agents`. It adds one to `c_man` and changes no other cell. |
| Init.InitRow | game.py:27-32 | The inner loop only appends agents. `c_man` grows by the number appended. The other counters are unchanged. |
| Init.InitRows | game.py:26-32 | The outer loop only appends agents. `c_man` grows by the number appended. The other counters are unchanged. |
| Init.InitializeWorld | game.py:24-32 | On any state, initialisation keeps the existing agents as a prefix. It counts every new agent in `c_man` and leaves `c_machine` and `c_ai` unchanged. |
| Init.InitializeFromNew | game.py:16-32 | Starting from `__init__`, a cell holds a human with stasis 1 exactly when its draw is true. Otherwise it is empty with stasis 0. Every human cell appears exactly once in `agents`, in row-major order. `c_man` equals `len(agents)`, and the world is consistent. |
| Movement.Candidates | game.py:37-41 | The shuffled candidate list has four entries. Each is on the grid and one cyclic step from the agent, and a cell is a candidate exactly when it is one of the four neighbours. |
| Movement.CandidatesRearrange | game.py:37-41 | The shuffled candidate list is a rearrangement of the four neighbours: each cell occurs as often as among the neighbours. When `dim == 2`, up and down are the same cell, and so are left and right; each still occurs twice. |
| Movement.SideTwoTwice | game.py:37-41 | When `dim == 2`, every shuffle of the candidates lists the vertical neighbour twice and the horizontal neighbour twice. |
| Movement.FirstVacant | game.py:42-43 | The scan finds the first empty candidate, and every earlier candidate is occupied. It finds nothing exactly when all candidates are occupied. |
| Movement.Relocate | game.py:44-48 | The agent's stored position becomes the destination, and the source has label 0 and stasis 0. If the destination differs from the source, it gets the old label and stasis. No other cell or agent entry changes. |
| Movement.Move | game.py:34-49 | A move keeps the world's shape and agent count and never changes the counters. |
| Movement.MoveSaturated | game.py:42-49 | When all four neighbours are occupied, the state is left entirely unchanged. |
| Movement.MoveToFirstVacant | game.py:42-49 | When some neighbour is empty, the agent moves to the first empty candidate in shuffled order. That cell was empty beforehand. The destination gets the label and stasis, and the source is cleared. No other cell or agent entry changes. |
| Movement.MovesIffVacantNeighbor | game.py:37-49 | When `dim >= 2`, the agent leaves its cell if and only if one of its four neighbours is empty. |
| Movement.SingleCellStays | game.py:38-43 | When `dim == 1`, an agent standing on an occupied cell never moves. |
| Movement.RelocateContents | game.py:44-47 | Moving onto an empty cell keeps the multisets of labels and of stasis values. |
| Movement.RelocateConsistent | game.py:44-48 | Moving an agent of a consistent world onto an empty cell keeps the world consistent. |
| Movement.MovePreservesConsistency | game.py:34-49 | `_move_agent` keeps the world consistent. It also keeps the label multiset, the stasis multiset and the occupied count. |
| Simulation.ShuffleAgents | game.py:57 | Shuffling `agents` keeps their multiset and changes neither the matrices nor the counters. |
| Simulation.StepAgents | game.py:62-63 | Moving every index in turn keeps the shape, the agent count and the counters. |
| Simulation.Tick | game.py:56-63 | A tick raises exactly when `t > 0` and the interval is 0. Otherwise it keeps the shape, the agent count and the counters. |
| Simulation.Simulate | game.py:56-63 | A run of ticks succeeds if and only if the interval is non-zero or no tick index past 0 is reached. A successful run keeps the agent count and the counters. |
| Simulation.RunSimulation | game.py:51-63 | `run_simulation` fails exactly when the interval is 0 and there are at least two time steps. |
| Simulation.ShufflePreservesConsistency | game.py:57 | Shuffling `agents` keeps a consistent world consistent and keeps its population. |
| Simulation.StepAgentsPreserve | game.py:62-63 | Moving every agent in turn keeps consistency, the agent count, the occupied count, the counters and the label and stasis multisets. |
| Simulation.TickPreserves | game.py:56-63 | A tick that does not raise keeps consistency and the population. |
| Simulation.SimulatePreserves | game.py:56-63 | Across any number of ticks, consistency holds. The agent count, the occupied count, `c_man`, `c_machine`, `c_ai` and the label and stasis multisets are unchanged. |
| Simulation.RunFromNew | game.py:51-63 | When `run_simulation` on a fresh game finishes, the world is consistent. `c_man`, `len(agents)` and the occupied count are equal, and the population is the one initialisation produced. |
| Simulation.CentreMovesUp | game.py:36-48 | On a 3 × 3 torus with one agent at (1, 1) and the order up, left, down, right, one tick moves the agent to (0, 1) with its label and stasis and empties (1, 1). |

## Left out

- Console output (game.py:55, 65-66, 68) and the command-line block (game.py:70-78): these are I/O.
- The `random` module itself: its outcomes are parameters. Uniformity of the shuffles is not a property of a single run.
- The float comparison `random.uniform(0, 1) < p_dense`: it is replaced by the boolean decision for each cell. `p_dense` is not part of the state.
- The rate parameters `k_birth` … `k_compcreate`: they are floats that no logic reads.
- The birth/death hook: its body is `pass`, so it is the identity. Only its condition, which can raise, is modelled.
- Simulation.Simulate: on `ZeroDivisionError` the model returns only the error. It does not return the object state the exception leaves behind, which includes the earlier completed ticks and the agent shuffle of the failing tick.
- Negative agent indices, which Python lists accept: the tick loop only passes indices in `range(len(agents))`.
- Machine and AI labels: nothing in `game.py` ever creates them, so `c_machine` and `c_ai` stay at their initial values.
- Snapshots, history samples and charts: no such code exists in `game.py`.
