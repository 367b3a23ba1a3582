# Disaster-rescue grid simulation: the per-step agent engine

The simulation places 100 000 agents on an 80 × 80 grid in every MPI rank.
One agent in four, those whose index is a multiple of 4, is a rescuer; the
others are civilians. A disaster zone four cells wide slides along the middle
row, one column per step. Each time step (30 steps in the MPI and MPI + OpenMP
builds, 50 in the MapReduce build) runs the same passes over each rank's agent
array, in place:

1. **Civilian pass.** Every live civilian takes a clamped random step of ±1 on
   each axis. It dies when it lands on a disaster cell. Survivors are counted
   (`alive_civilians`), and one survivor's position is elected into the
   two-int distress buffer. The buffer's sentinel (-1, -1) means no one was
   elected.
2. **Broadcast** of rank 0's distress buffer to every rank (`MPI_Bcast`,
   section 5.4 of the MPI 3.1 standard).
3. **Rescuer pass.** Every live rescuer moves one cell toward the distress cell
   on each axis; an axis already on the target does not move. When there is no distress cell it takes a random step.
4. **Last pass.** In the MPI build (`M4T1.MPI.cpp`) and the MPI + OpenMP build
   (`M4T1.OPENMPI+OPENMP.cpp`), every live civilian within Chebyshev distance 1
   of the distress cell is marked rescued (dead) and counted. In the MapReduce
   build (`M4T1MAPREDUCE.cpp`), `map_agents` counts, read-only, the live
   civilians standing on a disaster cell.
5. **Reduction** of the local counts to rank 0 with `MPI_SUM` (`MPI_Reduce`,
   section 5.9.1 of MPI 3.1).

## Modules

- `Grid`: the grid and the disaster window. It also holds `rand() % 3 - 1`,
  the clamp and the one-cell pursuit step.
- `Agents`: the agent record, the initialisation loop and the per-agent rule
  of each pass. These are functions, plus the imperative operations on one array slot:
  `move_toward`, the random step, the civilian move (`MoveCivilian`) and one
  whole civilian-loop iteration (`CivilianIteration`). The `...Phase` functions give the
  effect of a whole pass on a population.
- `Counting`: counting the agents that pass a test. It also defines schedules,
  the orders in which an OpenMP `parallel for` can visit the indices.
- `Election`: the distress election, "the first surviving civilian in the
  order the iterations run".
- `Collectives`: the value semantics of broadcast and sum-reduction over the
  per-rank values.
- `Phases`: facts about whole passes, such as the rescue accounting and what
  each pass leaves alone.
- `SequentialStep`: the three loops of the pure-MPI build, over an
  `array<Agent>` in index order.
- `ThreadedStep`: the three `omp parallel for` loops. Each runs its loop body
  along an arbitrary schedule. The contracts show that the array comes out as
  the sequential pass leaves it, whatever the schedule. The reduction counters
  come out exact. The election yields *some* survivor, the first one in the
  schedule's order.
- `MapReduceStep`: `map_agents` (a read-only loop) and `reduce_rescue_counts`.
- `Protocol`: one step across all ranks (`Step`) and a run of several steps
  (`Run`), as functions of the per-rank populations and inputs, with their
  properties.
- `Cluster`: the step loop body as it runs on all ranks' arrays. It calls the
  pass methods and proves the arrays end exactly as `Step` says.

Notes on the model:

- The three source files contain textually identical copies of
  `is_disaster_cell` and `move_toward`: `M4T1.MPI.cpp:34-44`,
  `M4T1.OPENMPI+OPENMP.cpp:35-46` and `M4T1MAPREDUCE.cpp:35-46`. The clamped
  random step is identical in all three as well. Each is defined once, and the
  table cites the MPI copy.
- The civilian and rescuer passes of the MapReduce build
  (`M4T1MAPREDUCE.cpp:110-163`) are the same `parallel for` loops as in the
  MPI + OpenMP build. Both builds use `ThreadedStep`.
- A random step consumes two raw `rand()` results. The model takes them as
  input, one `Draw` per agent and pass, so the draw an agent uses does not
  depend on the order of the iterations.
- A window sliding modulo GRID_SIZE would wrap round to column 0 near the
  right edge. The code reduces only the window's start modulo 80, so at steps
  77–79 (mod 80) the window is cut off at the right edge instead. The model
  follows the code, as `Grid.DisasterZoneGeometry` shows.
- In the MapReduce build, the count `map_agents` returns (called "rescued")
  is always 0 at the point where `main` calls it. The civilian pass of the
  same step has already killed every civilian standing on that step's
  disaster cells, and the rescuer pass moves only rescuers
  (`MapReduceStep.ZoneCountAfterPassesIsZero`, `Protocol.StepZoneCountIsZero`).
- In the proximity builds, rank 0 always rescues the very civilian who raised
  the distress call. That civilian is still alive and still on the distress
  cell when the rescue pass runs (`Protocol.StepRescuesDistressCaller`).

## Model

| member | source | states |
|---|---|---|
| Grid.IsDisasterCell | M4T1.MPI.cpp:34-36 | `is_disaster_cell`: row GRID_SIZE / 2, columns from step % 80 to step % 80 + 3; a definition, whose geometry the next two rows state |
| Grid.DisasterZoneGeometry | M4T1.MPI.cpp:34-36 | the zone lies on row 40 within [step % 80, step % 80 + 3]; it repeats every 80 steps; no column left of the start is in it; at step % 80 == 78 only columns 78 and 79 are in it (no wrap-around) |
| Grid.DisasterZoneSlides | M4T1.MPI.cpp:34-36 | between steps whose start does not wrap, the zone moves right by exactly one column |
| Grid.Delta | M4T1.MPI.cpp:95-96 | `rand() % 3 - 1` of a non-negative draw is in {-1, 0, 1}; it is -1 exactly when the draw is a multiple of 3 |
| Grid.Clamp | M4T1.MPI.cpp:97-98 | `max(0, min(GRID_SIZE - 1, v))` is in the grid, keeps in-grid values, sends negatives to 0 and values past the edge to 79 |
| Grid.RandomWalk | M4T1.MPI.cpp:95-98 | a clamped random coordinate is always in the grid, and from an in-grid start it moves at most one cell |
| Grid.StepToward | M4T1.MPI.cpp:39-44 | one axis of `move_toward` moves at most one cell, holds when already on the target, brings the distance to the target down by one otherwise, and never overshoots |
| Grid.PursuitShortensDistance | M4T1.MPI.cpp:39-44 | `move_toward` brings a nonzero Chebyshev distance to the target down by exactly one, and keeps an in-grid agent heading to an in-grid target inside the grid |
| Agents.NewAgent | M4T1.MPI.cpp:73-76 | agent i gets id i, is a rescuer exactly when i % 4 == 0, starts alive and in the grid |
| Agents.InitAgents | M4T1.MPI.cpp:71-77 | the initialisation loop yields AGENT_COUNT agents; agent i has id i, rescuer iff i % 4 == 0, alive, in-grid, with x and y from its two draws |
| Agents.RandomStep | M4T1.MPI.cpp:95-98 | the clamped random step lands in the grid, moves each in-grid coordinate by at most 1, and keeps id, role and liveness |
| Agents.Pursue | M4T1.MPI.cpp:39-44 | `move_toward` keeps id, role and liveness; it moves each axis by at most 1, holds an axis already on the target, lowers a nonzero Chebyshev distance by one, and stays in the grid |
| Agents.MoveToward | M4T1.MPI.cpp:39-44 | the in-place `move_toward` on an array slot changes that slot exactly as `Pursue` says and nothing else |
| Agents.RandomMove | M4T1.MPI.cpp:128-131 | the in-place clamped random step changes only slot i, into `RandomStep` of it |
| Agents.CivilianUpdate | M4T1.MPI.cpp:90-110 | dead agents and rescuers are left unchanged; a live civilian ends in the grid and is alive iff its new cell is not a disaster cell; nobody revives; id and role are kept |
| Agents.MoveCivilian | M4T1.MPI.cpp:95-104 | the in-place civilian move changes only slot i, as `CivilianUpdate` says, and reports survival exactly when the civilian is still alive |
| Agents.CivilianIteration | M4T1.MPI.cpp:90-110 | one iteration of the civilian loop changes only slot i, as `CivilianUpdate` says (dead agents skipped, rescuers untouched), and reports a survivor exactly when slot i ends as a live civilian, which is when the loop counts it and offers it to the election |
| Agents.RescuerUpdate | M4T1.MPI.cpp:122-133 | only live rescuers move; with a valid distress cell (x >= 0) a live rescuer ends one Chebyshev step nearer to it, or stays on it; with the sentinel it takes exactly the clamped random step of its draw; with an in-grid or sentinel pair it stays in the grid and moves at most one cell; id, role and liveness are kept |
| Agents.RescueUpdate | M4T1.MPI.cpp:139-144 | the rescue check moves no one; it turns an agent dead iff it is a live civilian within distance 1 of a valid distress cell; with the sentinel it changes nothing |
| Agents.CivilianPhase | M4T1.MPI.cpp:89-111 | the civilian pass as a function of the population: every agent gets `CivilianUpdate` with its own draw; a definition, whose properties `CivilianPhaseSurvivors` and `Phases.AliveCiviliansAreSurvivors` state |
| Agents.RescuerPhase | M4T1.MPI.cpp:121-134 | the rescuer pass as a function of the population: every agent gets `RescuerUpdate`; a definition, whose properties `Phases.RescuerPhaseMovesOnlyRescuers` states |
| Agents.RescuePhase | M4T1.MPI.cpp:136-145 | the rescue pass as a function of the population: every agent gets `RescueUpdate`; a definition, whose properties `Phases.RescueAccounting` and `Phases.RescueMarksNeighbours` state |
| Agents.CivilianPhaseSurvivors | M4T1.MPI.cpp:89-111 | after the civilian pass every live civilian is in the grid and off the disaster zone, and it is alive iff it was a live civilian whose random step avoided the zone |
| Election.Elect | M4T1.MPI.cpp:105-108 | the distress buffer after the iterations ran along an order: the first live civilian met writes its position, otherwise the sentinel stays; a definition, whose properties the following rows state |
| Election.ElectSnoc | M4T1.MPI.cpp:105-108 | one more iteration writes its civilian's position exactly when the buffer still reads -1 and the civilian survived |
| Election.ElectFindsSurvivor | M4T1.OPENMPI+OPENMP.cpp:106-112 | the elected buffer is the sentinel or an in-grid cell (both components set together); it is the sentinel iff no iteration met a survivor, and otherwise it is the position of the first survivor met |
| Election.ElectAlongSchedule | M4T1.OPENMPI+OPENMP.cpp:87-115 | whatever the thread schedule, the buffer is the sentinel iff no civilian survived, and otherwise it is the position of some surviving civilian |
| Election.ElectInIndexOrder | M4T1.MPI.cpp:85-111 | in index order the buffer is the sentinel iff no civilian survived, and otherwise it is the lowest-index survivor's position |
| Election.ElectAfterCivilianPhase | M4T1.OPENMPI+OPENMP.cpp:87-115 | over the population the civilian pass leaves, along any schedule, the buffer is a valid signal; it is the sentinel iff no civilian survived, and otherwise a survivor's position, off the disaster zone |
| Election.ElectInIndexOrderAfterCivilianPhase | M4T1.MPI.cpp:85-111 | the same in index order, where the elected survivor is the one of lowest index |
| Election.ScheduleIteration | M4T1.OPENMPI+OPENMP.cpp:92-112 | iteration k of a schedule visits an index not visited before, raises the `alive_civilians` reduction by one exactly for a live civilian, and writes the buffer exactly when it still reads -1 and the agent is a live civilian |
| Election.IndexIteration | M4T1.MPI.cpp:89-110 | iteration i of the index-order loop raises `alive_civilians` by one exactly for a live civilian, and writes the buffer exactly when it still reads -1 and the agent is a live civilian |
| Collectives.Broadcast | M4T1.MPI.cpp:114 | after `MPI_Bcast` from rank 0 every rank holds rank 0's value |
| Collectives.BroadcastAgrees | M4T1.OPENMPI+OPENMP.cpp:118 | after the broadcast all ranks agree, rank 0 keeps its value, and broadcasting again changes nothing |
| Collectives.SumOfCounts | M4T1.OPENMPI+OPENMP.cpp:156 | summing non-negative counts gives a non-negative total that is at least every single count |
| Collectives.Reduce | M4T1.MPI.cpp:150-151 | after `MPI_Reduce` with `MPI_SUM` to rank 0, the root's `total` is the sum of all local counts; the other ranks keep their initial 0 |
| Phases.RescueAccounting | M4T1.MPI.cpp:136-145 | the rescued count plus the live civilians after the rescue pass equals the live civilians before it; with the sentinel nobody is rescued and nothing changes |
| Phases.RescueMarksNeighbours | M4T1.OPENMPI+OPENMP.cpp:140-150 | the rescue pass keeps positions, ids and roles, kills exactly the live civilians within Chebyshev distance 1 of a valid distress cell, revives no one, and leaves every agent that is not a live civilian unchanged |
| Phases.AliveCiviliansAreSurvivors | M4T1.MPI.cpp:100-104 | `alive_civilians` is the number of civilians that were alive and whose random step avoided the disaster zone |
| Phases.RescuerPhaseMovesOnlyRescuers | M4T1.OPENMPI+OPENMP.cpp:125-138 | the rescuer pass leaves civilians and dead agents untouched and changes nobody's id, role or liveness; with a valid distress cell every live rescuer ends one Chebyshev step nearer to it (or stays on it), and with the sentinel it takes its clamped random step; the live-civilian count is kept |
| Phases.PhasesKeepGrid | M4T1.MPI.cpp:89-145 | an in-grid population stays in the grid through the civilian, rescuer and rescue passes |
| SequentialStep.CivilianPass | M4T1.MPI.cpp:85-111 | the array ends as `CivilianPhase`; `alive_civilians` counts the surviving civilians; the buffer is the sentinel iff none survived, and otherwise it is the lowest-index survivor's position, off the zone |
| SequentialStep.CivilianPassOutcome | M4T1.MPI.cpp:85-111 | once the loop has passed every index, the partially updated array is the whole pass, the running count is the survivor count, and the buffer is the sentinel iff none survived, otherwise the lowest-index survivor's position, off the zone |
| SequentialStep.RescuerPass | M4T1.MPI.cpp:121-134 | the array ends as `RescuerPhase` of the broadcast pair |
| SequentialStep.RescuePass | M4T1.MPI.cpp:136-145 | the array ends as `RescuePhase`; `rescued` counts the rescuable civilians; it plus the live civilians left equals the live civilians before; with the sentinel, 0 rescued and no change |
| ThreadedStep.CivilianPass | M4T1.OPENMPI+OPENMP.cpp:87-115 | along any schedule the array ends as the sequential pass leaves it; the reduction counts the survivors exactly; the critical section elects the first survivor along the schedule: the sentinel iff none survived, otherwise some survivor's position, off the zone |
| ThreadedStep.CivilianPassOutcome | M4T1.OPENMPI+OPENMP.cpp:87-115 | once the whole schedule has run, the blended array is the whole pass, the reduced count over the visited slots is the survivor count, and the critical-section election along the schedule is the sentinel iff none survived, otherwise a survivor's position, off the zone |
| ThreadedStep.RescuerPass | M4T1.OPENMPI+OPENMP.cpp:125-138 | along any schedule the array ends as the sequential rescuer pass leaves it |
| ThreadedStep.RescuePass | M4T1.OPENMPI+OPENMP.cpp:140-150 | along any schedule the array ends as the sequential rescue pass leaves it; the `rescued` reduction counts exactly the rescuable civilians, is 0 with the sentinel, and balances the live-civilian count |
| MapReduceStep.MapAgents | M4T1MAPREDUCE.cpp:62-71 | `map_agents` (no modifies clause: read-only) returns the number of live civilians on a disaster cell of the step; the result is at most the array's size, and it is 0 iff no such civilian exists |
| MapReduceStep.ReduceRescueCounts | M4T1MAPREDUCE.cpp:74-78 | `reduce_rescue_counts` returns the sum of all ranks' counts on rank 0 and 0 on every other rank |
| MapReduceStep.ZoneCountAfterPassesIsZero | M4T1MAPREDUCE.cpp:110-166 | after the civilian and rescuer passes of a step, the map count for that step is 0 |
| MapReduceStep.DeathOnlyInDisasterCheck | M4T1MAPREDUCE.cpp:110-163 | in this build liveness only goes from true to false, and only for a live civilian whose random step ended on a disaster cell; ids, roles and dead agents are unchanged |
| Protocol.Step | M4T1.MPI.cpp:85-156 | one step on every rank: civilian pass and election per rank, broadcast of rank 0's pair, rescuer pass and last pass with the received pair, reduction of the local counts; its contract keeps the number of ranks and every population's size, and the `Step...` lemmas state its properties |
| Protocol.StepBroadcastsRankZeroDistress | M4T1.MPI.cpp:85-118 | after the broadcast every rank holds rank 0's elected pair, which is a valid signal: the sentinel iff rank 0 has no survivor, otherwise the position of a survivor of rank 0, off the zone |
| Protocol.StepElectsSurvivor | M4T1.OPENMPI+OPENMP.cpp:87-115 | every rank's own election is the sentinel iff it has no survivor, and otherwise the position of one of its survivors |
| Protocol.StepTotals | M4T1.MPI.cpp:150-151 | rank 0's total equals the sum of all ranks' local counts and is at least each of them; every other rank's total is 0 |
| Protocol.StepPreservesIdentity | M4T1.MPI.cpp:89-145 | a step changes no agent's id or role and revives no one; rescuers keep their liveness; an agent dead at the start of the step keeps every field |
| Protocol.StepKeepsGrid | M4T1.MPI.cpp:89-145 | in-grid populations remain in the grid on every rank |
| Protocol.StepRescueAccounting | M4T1.OPENMPI+OPENMP.cpp:140-156 | on every rank, `rescued` plus the live civilians left equals `alive_civilians`; with the sentinel, `rescued` is 0 |
| Protocol.StepRescuesDistressCaller | M4T1.MPI.cpp:105-145 | whenever a distress pair is broadcast, rank 0 rescues at least one civilian, so the total is at least 1 |
| Protocol.StepZoneCountIsZero | M4T1MAPREDUCE.cpp:165-169 | in the MapReduce build every rank's local count and total are 0, and the live-civilian count after the step is `alive_civilians` |
| Protocol.Run | M4T1.MPI.cpp:82-160 | the step loop, one `Step` after another from a given first step number; it keeps the number of ranks and every population's size |
| Protocol.RunPreservesIdentity | M4T1.MPI.cpp:82-160 | over any number of steps, ids and roles never change, nobody revives, rescuers keep their liveness, and dead agents keep every field |
| Protocol.RunKeepsGrid | M4T1.MPI.cpp:82-160 | over any number of steps, in-grid populations remain in the grid |
| Cluster.CivilianRank | M4T1.OPENMPI+OPENMP.cpp:87-115 | one rank's civilian pass along its schedule ends as `CivilianPhase`, returns `alive_civilians` as the live-civilian count and the elected pair as `Elect` along the schedule |
| Cluster.CivilianStage | M4T1.OPENMPI+OPENMP.cpp:87-115 | each rank's array ends as its civilian pass says, with its own election and survivor count |
| Cluster.FinishStage | M4T1.OPENMPI+OPENMP.cpp:124-150 | each rank's array ends as its rescuer pass and last pass say, given the pair it received, and its local count is the last pass's count |
| Cluster.FinishRank | M4T1MAPREDUCE.cpp:148-166 | on one rank, the rescuer pass is followed by the proximity rescue or the map count, and the count matches `LastCount` |
| Cluster.StepAllRanks | M4T1.MPI.cpp:85-156 | one step on all ranks' distinct arrays leaves every array, survivor count, received pair, local count and total exactly as `Protocol.Step` says |

## Left out

- MPI start-up and tear-down (`MPI_Init`, `MPI_Comm_rank`/`MPI_Comm_size`, `MPI_Finalize`) and the transport behind `MPI_Bcast`/`MPI_Reduce` are foreign runtime code. Only the values the collectives deliver are modelled.
- `MPI_Barrier` only synchronises the ranks. In the model a step ends for all ranks before the next one starts.
- `rand()` and `srand(time(0) + rank)` are not modelled, because they depend on the clock and on the C library. The raw draws are inputs instead, one `Draw` per agent and pass.
- The draw each agent uses is fixed in the model, which departs from the source. There every `rand()` call consumes the next value of one per-process stream, shared unsafely by the OpenMP threads. The model does not capture which stream value goes to which agent.
- OpenMP thread creation, scheduling and the locking of `omp critical` are left out as concurrency machinery. They appear only through their outcome: an arbitrary schedule, exact reductions and a first-writer-wins election.
- `Cluster.FinishStage`: every `parallel for` of a rank in one step runs along the same schedule (`RankInput.schedule`). This loses nothing, because the rescuer and rescue passes produce the same result under every schedule.
- `write_csv`, `print_memory_usage` (getrusage), all `std::cout` output and `MPI_Wtime` timing are I/O or floating point. The `sleep_for` pacing is a wall-clock effect.
- `viusal_agents.py` is plotting and file handling only, with no simulation logic.
- `TIME_STEPS` (30 in the MPI and MPI + OpenMP builds, 50 in the MapReduce build) is not fixed: `Protocol.Run` takes any number of steps and any first step number.
- `Collectives.Reduce`: the sum uses unbounded integers. A 32-bit `MPI_INT` sum of counts of at most 100 000 could only overflow with more than 21 474 ranks. Coordinates stay in [0, 79], and no other 32-bit overflow can occur.

