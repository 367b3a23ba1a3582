/** One time step across all MPI ranks, and a run of several steps. Every
    rank holds its own population; within a step each rank runs its civilian
    pass, rank 0's distress pair is broadcast to every rank, each rank runs
    its rescuer pass with the pair it received and then its last pass, and
    the per-rank counts of that last pass are summed at rank 0. The per-rank
    passes are the loops of SequentialStep, ThreadedStep and MapReduceStep,
    whose contracts equate them with the phase functions used here. */
module Protocol {
  import opened Grid
  import opened Agents
  import opened Counting
  import opened Election
  import opened Collectives
  import opened Phases
  import opened MapReduceStep

  /** The pass that ends a step: the proximity rescue of the MPI and
      MPI + OpenMP builds, or the map count of the MapReduce build. */
  datatype LastPass = ProximityRescue | ZoneCount

  /** What one rank consumes in one step: one draw per agent for the civilian
      pass and one for the rescuer pass, and the order in which the civilian
      pass visits the agents (index order in the pure-MPI build, the order of
      the threads in the OpenMP builds). */
  datatype RankInput = RankInput(civilianDraws: seq<Draw>, rescuerDraws: seq<Draw>, schedule: seq<nat>)

  /** What one rank holds at the end of a step: the population after the
      civilian pass, `alive_civilians`, the distress pair it elected and the
      one it received, its final population, its local count, and the
      receive buffer of the reduction. */
  datatype RankStep = RankStep(moved: seq<Agent>, aliveCivilians: nat, elected: Distress,
                               received: Distress, agents: seq<Agent>, rescued: nat, total: int)

  predicate Fits(n: nat, input: RankInput)
  {
    |input.civilianDraws| == n && |input.rescuerDraws| == n && IsSchedule(input.schedule, n)
  }

  /** At least one rank, and one input of the right size per rank. */
  predicate WellFormed(pops: seq<seq<Agent>>, inputs: seq<RankInput>)
  {
    |pops| > 0 && |inputs| == |pops| && forall r :: 0 <= r < |pops| ==> Fits(|pops[r]|, inputs[r])
  }

  /** The distress pair each rank elects in its civilian pass. */
  function Elections(pops: seq<seq<Agent>>, inputs: seq<RankInput>, step: nat): (elected: seq<Distress>)
    requires WellFormed(pops, inputs)
    ensures |elected| == |pops|
  {
    seq(|pops|, r requires 0 <= r < |pops| =>
      Elect(CivilianPhase(pops[r], inputs[r].civilianDraws, step), inputs[r].schedule))
  }

  /** A rank's population after its last pass, given the population `after`
      its rescuer pass left: the proximity rescue marks the rescued dead, the
      map count changes nothing. */
  function LastAgents(last: LastPass, after: seq<Agent>, received: Distress): seq<Agent>
  {
    match last
    case ProximityRescue => RescuePhase(after, received)
    case ZoneCount => after
  }

  /** A rank's local count: `rescued` of the proximity rescue, or the result
      of `map_agents`. */
  function LastCount(last: LastPass, after: seq<Agent>, received: Distress, step: nat): nat
  {
    match last
    case ProximityRescue => Count(after, Rescuable(received))
    case ZoneCount => Count(after, ZoneCasualty(step))
  }

  /** Everything one rank holds at the end of the step, given the pair it
      received and its receive buffer of the reduction. */
  function RankOutcome(last: LastPass, pop: seq<Agent>, input: RankInput, received: Distress, step: nat, total: int): RankStep
    requires Fits(|pop|, input)
  {
    var moved := CivilianPhase(pop, input.civilianDraws, step);
    var after := RescuerPhase(moved, input.rescuerDraws, received);
    RankStep(moved, Count(moved, LiveCivilian), Elect(moved, input.schedule), received,
             LastAgents(last, after, received), LastCount(last, after, received, step), total)
  }

  /** The local counts that go into the reduction. */
  function LocalCounts(last: LastPass, pops: seq<seq<Agent>>, inputs: seq<RankInput>, received: seq<Distress>, step: nat): seq<int>
    requires WellFormed(pops, inputs) && |received| == |pops|
  {
    seq(|pops|, r requires 0 <= r < |pops| =>
      LastCount(last, RescuerPhase(CivilianPhase(pops[r], inputs[r].civilianDraws, step),
                                   inputs[r].rescuerDraws, received[r]), received[r], step) as int)
  }

  /** One time step on every rank. */
  function Step(last: LastPass, pops: seq<seq<Agent>>, inputs: seq<RankInput>, step: nat): (out: seq<RankStep>)
    requires WellFormed(pops, inputs)
    ensures |out| == |pops|
    ensures forall r :: 0 <= r < |out| ==> |out[r].agents| == |pops[r]| && |out[r].moved| == |pops[r]|
  {
    var received := Broadcast(Elections(pops, inputs, step));
    var totals := Reduce(LocalCounts(last, pops, inputs, received, step));
    seq(|pops|, r requires 0 <= r < |pops| => RankOutcome(last, pops[r], inputs[r], received[r], step, totals[r]))
  }

  /** The local counts of all ranks, in rank order. */
  function Rescued(out: seq<RankStep>): seq<int>
  {
    seq(|out|, r requires 0 <= r < |out| => out[r].rescued as int)
  }

  /** The final populations of all ranks, in rank order. */
  function Populations(out: seq<RankStep>): seq<seq<Agent>>
  {
    seq(|out|, r requires 0 <= r < |out| => out[r].agents)
  }

  /** After the broadcast every rank holds rank 0's elected pair, which is the
      sentinel exactly when rank 0 has no surviving civilian and otherwise
      the position of one of rank 0's survivors, off the disaster zone. */
  lemma StepBroadcastsRankZeroDistress(last: LastPass, pops: seq<seq<Agent>>, inputs: seq<RankInput>, step: nat)
    requires WellFormed(pops, inputs)
    ensures var out := Step(last, pops, inputs, step);
            (forall r :: 0 <= r < |out| ==> out[r].received == out[0].elected && IsSignal(out[r].received)) &&
            (out[0].elected == NoDistress <==> out[0].aliveCivilians == 0) &&
            (out[0].elected != NoDistress ==>
               exists i :: 0 <= i < |out[0].moved| && LiveCivilian(out[0].moved[i]) &&
                 out[0].elected == Position(out[0].moved[i]) &&
                 !IsDisasterCell(out[0].moved[i].x, out[0].moved[i].y, step))
  {
    var out := Step(last, pops, inputs, step);
    var m := out[0].moved;
    assert m == CivilianPhase(pops[0], inputs[0].civilianDraws, step);
    CivilianPhaseSurvivors(pops[0], inputs[0].civilianDraws, step);
    ElectAlongSchedule(m, inputs[0].schedule);
  }

  /** Every rank elects its own pair in the same way: the sentinel exactly
      when it has no survivor, otherwise one survivor's position. */
  lemma StepElectsSurvivor(last: LastPass, pops: seq<seq<Agent>>, inputs: seq<RankInput>, step: nat, r: nat)
    requires WellFormed(pops, inputs) && r < |pops|
    ensures var out := Step(last, pops, inputs, step);
            IsSignal(out[r].elected) &&
            (out[r].elected == NoDistress <==> out[r].aliveCivilians == 0) &&
            (out[r].elected != NoDistress ==>
               exists i :: 0 <= i < |out[r].moved| && LiveCivilian(out[r].moved[i]) &&
                 out[r].elected == Position(out[r].moved[i]))
  {
    var out := Step(last, pops, inputs, step);
    var m := out[r].moved;
    assert m == CivilianPhase(pops[r], inputs[r].civilianDraws, step);
    CivilianPhaseSurvivors(pops[r], inputs[r].civilianDraws, step);
    ElectAlongSchedule(m, inputs[r].schedule);
  }

  /** The reduction: rank 0's total is the sum of every rank's local count,
      which is no smaller than any of them; the other ranks' totals stay 0. */
  lemma StepTotals(last: LastPass, pops: seq<seq<Agent>>, inputs: seq<RankInput>, step: nat)
    requires WellFormed(pops, inputs)
    ensures var out := Step(last, pops, inputs, step);
            out[0].total == Sum(Rescued(out)) &&
            (forall r :: 0 <= r < |out| ==> out[r].rescued <= out[0].total) &&
            (forall r :: 1 <= r < |out| ==> out[r].total == 0)
  {
    var out := Step(last, pops, inputs, step);
    var received := Broadcast(Elections(pops, inputs, step));
    var local := LocalCounts(last, pops, inputs, received, step);
    assert forall r :: 0 <= r < |out| ==> out[r].rescued == local[r] && out[r].total == Reduce(local)[r];
    assert Rescued(out) == local;
    SumOfCounts(local);
  }

  /** Nobody's id or role changes, nobody comes back to life, a rescuer's
      liveness never changes, and an agent that is dead at the start of the
      step keeps every field. */
  lemma StepPreservesIdentity(last: LastPass, pops: seq<seq<Agent>>, inputs: seq<RankInput>, step: nat)
    requires WellFormed(pops, inputs)
    ensures var out := Step(last, pops, inputs, step);
            forall r, i :: 0 <= r < |out| && 0 <= i < |pops[r]| ==>
              out[r].agents[i].id == pops[r][i].id && out[r].agents[i].isRescue == pops[r][i].isRescue &&
              (out[r].agents[i].isAlive ==> pops[r][i].isAlive) &&
              (pops[r][i].isRescue ==> out[r].agents[i].isAlive == pops[r][i].isAlive) &&
              (!pops[r][i].isAlive ==> out[r].agents[i] == pops[r][i])
  {
  }

  /** Populations inside the grid stay inside it. */
  lemma StepKeepsGrid(last: LastPass, pops: seq<seq<Agent>>, inputs: seq<RankInput>, step: nat)
    requires WellFormed(pops, inputs)
    requires forall r :: 0 <= r < |pops| ==> AllInGrid(pops[r])
    ensures var out := Step(last, pops, inputs, step);
            forall r :: 0 <= r < |out| ==> AllInGrid(out[r].agents)
  {
    var out := Step(last, pops, inputs, step);
    StepBroadcastsRankZeroDistress(last, pops, inputs, step);
    forall r | 0 <= r < |out|
      ensures AllInGrid(out[r].agents)
    {
      PhasesKeepGrid(pops[r], inputs[r].civilianDraws, inputs[r].rescuerDraws, out[r].received, step);
    }
  }

  /** With the proximity rescue each rank's count is the number of its
      survivors that the rescue pass turns dead. */
  lemma StepRescueAccounting(pops: seq<seq<Agent>>, inputs: seq<RankInput>, step: nat)
    requires WellFormed(pops, inputs)
    ensures var out := Step(ProximityRescue, pops, inputs, step);
            forall r :: 0 <= r < |out| ==>
              out[r].rescued + Count(out[r].agents, LiveCivilian) == out[r].aliveCivilians &&
              (out[r].received == NoDistress ==> out[r].rescued == 0)
  {
    var out := Step(ProximityRescue, pops, inputs, step);
    forall r | 0 <= r < |out|
      ensures out[r].rescued + Count(out[r].agents, LiveCivilian) == out[r].aliveCivilians
      ensures out[r].received == NoDistress ==> out[r].rescued == 0
    {
      var after := RescuerPhase(out[r].moved, inputs[r].rescuerDraws, out[r].received);
      assert out[r].agents == RescuePhase(after, out[r].received);
      assert out[r].rescued == Count(after, Rescuable(out[r].received));
      RescuerPhaseMovesOnlyRescuers(out[r].moved, inputs[r].rescuerDraws, out[r].received);
      RescueAccounting(after, out[r].received);
    }
  }

  /** With the proximity rescue, the civilian whose position rank 0 elected
      is still alive and standing on the distress cell when the rescue pass
      runs, so rank 0 rescues at least one civilian whenever a distress pair
      was broadcast. */
  lemma StepRescuesDistressCaller(pops: seq<seq<Agent>>, inputs: seq<RankInput>, step: nat)
    requires WellFormed(pops, inputs)
    ensures var out := Step(ProximityRescue, pops, inputs, step);
            out[0].received != NoDistress ==> out[0].rescued >= 1 && out[0].total >= 1
  {
    var out := Step(ProximityRescue, pops, inputs, step);
    StepBroadcastsRankZeroDistress(ProximityRescue, pops, inputs, step);
    if out[0].received != NoDistress {
      var m := out[0].moved;
      var i :| 0 <= i < |m| && LiveCivilian(m[i]) && out[0].elected == Position(m[i]);
      var after := RescuerPhase(m, inputs[0].rescuerDraws, out[0].received);
      assert after[i] == m[i];
      assert Rescuable(out[0].received)(after[i]);
      assert out[0].rescued == Count(after, Rescuable(out[0].received));
      CountZeroIff(after, Rescuable(out[0].received));
      StepTotals(ProximityRescue, pops, inputs, step);
    }
  }

  /** With the map count every rank's count, and so rank 0's total, is 0,
      and no agent dies outside the civilian pass. */
  lemma StepZoneCountIsZero(pops: seq<seq<Agent>>, inputs: seq<RankInput>, step: nat)
    requires WellFormed(pops, inputs)
    ensures var out := Step(ZoneCount, pops, inputs, step);
            (forall r :: 0 <= r < |out| ==> out[r].rescued == 0 && out[r].total == 0) &&
            (forall r :: 0 <= r < |out| ==> Count(out[r].agents, LiveCivilian) == out[r].aliveCivilians)
  {
    var out := Step(ZoneCount, pops, inputs, step);
    forall r | 0 <= r < |out|
      ensures out[r].rescued == 0
      ensures Count(out[r].agents, LiveCivilian) == out[r].aliveCivilians
    {
      assert out[r].agents == RescuerPhase(out[r].moved, inputs[r].rescuerDraws, out[r].received);
      ZoneCountAfterPassesIsZero(pops[r], inputs[r].civilianDraws, inputs[r].rescuerDraws, out[r].received, step);
      RescuerPhaseMovesOnlyRescuers(out[r].moved, inputs[r].rescuerDraws, out[r].received);
    }
    StepTotals(ZoneCount, pops, inputs, step);
    SumZero(Rescued(out));
  }

  /** Input of the right size for every step of a run. */
  predicate RunFits(pops: seq<seq<Agent>>, steps: seq<seq<RankInput>>)
  {
    forall t :: 0 <= t < |steps| ==> WellFormed(pops, steps[t])
  }

  /** The main loop: the steps `first`, `first + 1`, ... one after another,
      each on the populations the previous one left. */
  function Run(last: LastPass, pops: seq<seq<Agent>>, steps: seq<seq<RankInput>>, first: nat): (final: seq<seq<Agent>>)
    requires RunFits(pops, steps)
    ensures |final| == |pops| && forall r :: 0 <= r < |pops| ==> |final[r]| == |pops[r]|
    decreases |steps|
  {
    if |steps| == 0 then pops
    else
      var next := Populations(Step(last, pops, steps[0], first));
      StepKeepsShape(last, pops, steps, first);
      Run(last, next, steps[1..], first + 1)
  }

  /** A step keeps the number of ranks and every rank's population size,
      so the inputs of the later steps still fit. */
  lemma StepKeepsShape(last: LastPass, pops: seq<seq<Agent>>, steps: seq<seq<RankInput>>, first: nat)
    requires RunFits(pops, steps) && |steps| > 0
    ensures var next := Populations(Step(last, pops, steps[0], first));
            |next| == |pops| && (forall r :: 0 <= r < |pops| ==> |next[r]| == |pops[r]|) &&
            RunFits(next, steps[1..])
  {
    var next := Populations(Step(last, pops, steps[0], first));
    assert forall r :: 0 <= r < |pops| ==> |next[r]| == |pops[r]|;
    forall t | 0 <= t < |steps| - 1
      ensures WellFormed(next, steps[1..][t])
    {
      assert steps[1..][t] == steps[t + 1];
      assert WellFormed(pops, steps[t + 1]);
    }
  }

  /** `after` has the shape of `before`, and agent by agent it keeps the id
      and role, never revives, keeps a rescuer's liveness and leaves the dead
      exactly as they were. */
  predicate KeepsIdentity(before: seq<seq<Agent>>, after: seq<seq<Agent>>)
  {
    |after| == |before| &&
    (forall r :: 0 <= r < |before| ==> |after[r]| == |before[r]|) &&
    (forall r, i :: 0 <= r < |before| && 0 <= i < |before[r]| ==>
       after[r][i].id == before[r][i].id && after[r][i].isRescue == before[r][i].isRescue &&
       (after[r][i].isAlive ==> before[r][i].isAlive) &&
       (before[r][i].isRescue ==> after[r][i].isAlive == before[r][i].isAlive) &&
       (!before[r][i].isAlive ==> after[r][i] == before[r][i]))
  }

  lemma KeepsIdentityTrans(a: seq<seq<Agent>>, b: seq<seq<Agent>>, c: seq<seq<Agent>>)
    requires KeepsIdentity(a, b) && KeepsIdentity(b, c)
    ensures KeepsIdentity(a, c)
  {
  }

  /** Identity, roles, the liveness of rescuers and the permanence of death
      hold over a whole run. */
  lemma {:induction false} RunPreservesIdentity(last: LastPass, pops: seq<seq<Agent>>, steps: seq<seq<RankInput>>, first: nat)
    requires RunFits(pops, steps)
    ensures KeepsIdentity(pops, Run(last, pops, steps, first))
    decreases |steps|
  {
    if |steps| > 0 {
      var out := Step(last, pops, steps[0], first);
      var next := Populations(out);
      StepKeepsShape(last, pops, steps, first);
      RunPreservesIdentity(last, next, steps[1..], first + 1);
      StepPreservesIdentity(last, pops, steps[0], first);
      assert KeepsIdentity(pops, next) by {
        assert forall r :: 0 <= r < |pops| ==> next[r] == out[r].agents;
      }
      KeepsIdentityTrans(pops, next, Run(last, next, steps[1..], first + 1));
      assert Run(last, pops, steps, first) == Run(last, next, steps[1..], first + 1);
    }
  }

  /** Every rank's population lies in the grid. */
  predicate AllRanksInGrid(pops: seq<seq<Agent>>)
  {
    forall r :: 0 <= r < |pops| ==> AllInGrid(pops[r])
  }

  /** Populations inside the grid stay inside it over a whole run. */
  lemma {:induction false} RunKeepsGrid(last: LastPass, pops: seq<seq<Agent>>, steps: seq<seq<RankInput>>, first: nat)
    requires RunFits(pops, steps) && AllRanksInGrid(pops)
    ensures AllRanksInGrid(Run(last, pops, steps, first))
    decreases |steps|
  {
    if |steps| > 0 {
      var out := Step(last, pops, steps[0], first);
      var next := Populations(out);
      StepKeepsShape(last, pops, steps, first);
      assert AllRanksInGrid(next) by {
        StepKeepsGrid(last, pops, steps[0], first);
        assert forall r :: 0 <= r < |next| ==> next[r] == out[r].agents;
      }
      RunKeepsGrid(last, next, steps[1..], first + 1);
      assert Run(last, pops, steps, first) == Run(last, next, steps[1..], first + 1);
    }
  }
}
