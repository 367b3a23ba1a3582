/** The body of the time-step loop of `main`, run by every rank on its own
    agent array. The ranks run the civilian pass side by side, meet in the
    broadcast of rank 0's distress pair, run the rescuer pass and the last
    pass side by side, and meet again in the reduction of the local counts.
    The arrays are distinct: no rank can see another rank's agents. */
module Cluster {
  import opened Agents
  import opened Collectives
  import opened Counting
  import opened Election
  import opened Protocol
  import ThreadedStep
  import MapReduceStep

  /** The agent arrays of all ranks, read as populations. */
  function Snapshot(ranks: seq<array<Agent>>): seq<seq<Agent>>
    reads set r | 0 <= r < |ranks| :: ranks[r]
  {
    seq(|ranks|, r requires 0 <= r < |ranks| reads set q | 0 <= q < |ranks| :: ranks[q] => ranks[r][..])
  }

  /** The civilian pass of one rank, along the schedule of its input. */
  method CivilianRank(a: array<Agent>, input: RankInput, step: nat) returns (alive: nat, distress: Distress)
    requires Fits(a.Length, input)
    modifies a
    ensures a[..] == CivilianPhase(old(a[..]), input.civilianDraws, step)
    ensures distress == Elect(a[..], input.schedule) && alive == Count(a[..], LiveCivilian)
  {
    alive, distress := ThreadedStep.CivilianPass(a, input.civilianDraws, step, input.schedule);
  }

  /** The rescuer pass and then the last pass of one rank, on the array the
      civilian pass left. */
  method FinishRank(last: LastPass, a: array<Agent>, draws: seq<Draw>, received: Distress, step: nat, order: seq<nat>)
    returns (count: nat)
    requires |draws| == a.Length && IsSchedule(order, a.Length)
    modifies a
    ensures a[..] == LastAgents(last, RescuerPhase(old(a[..]), draws, received), received)
    ensures count == LastCount(last, RescuerPhase(old(a[..]), draws, received), received, step)
  {
    ThreadedStep.RescuerPass(a, draws, received, order);
    match last {
      case ProximityRescue =>
        count := ThreadedStep.RescuePass(a, received, order);
      case ZoneCount =>
        count := MapReduceStep.MapAgents(a, step);
    }
  }

  /** The arrays of the ranks are distinct and each fits its rank's input. */
  predicate RanksFit(ranks: seq<array<Agent>>, inputs: seq<RankInput>)
  {
    |ranks| > 0 && |inputs| == |ranks| &&
    (forall r, q :: 0 <= r < q < |ranks| ==> ranks[r] != ranks[q]) &&
    (forall r :: 0 <= r < |ranks| ==> Fits(ranks[r].Length, inputs[r]))
  }

  /** The civilian pass on every rank, each electing its own distress pair. */
  method CivilianStage(ranks: seq<array<Agent>>, inputs: seq<RankInput>, step: nat)
    returns (elected: seq<Distress>, aliveCivilians: seq<nat>)
    requires RanksFit(ranks, inputs)
    modifies set r | 0 <= r < |ranks| :: ranks[r]
    ensures |elected| == |ranks| && |aliveCivilians| == |ranks|
    ensures forall q :: 0 <= q < |ranks| ==>
              ranks[q][..] == CivilianPhase(old(ranks[q][..]), inputs[q].civilianDraws, step) &&
              elected[q] == Elect(ranks[q][..], inputs[q].schedule) &&
              aliveCivilians[q] == Count(ranks[q][..], LiveCivilian)
  {
    ghost var pops := Snapshot(ranks);
    ghost var moved: seq<seq<Agent>> := [];
    elected, aliveCivilians := [], [];
    for r := 0 to |ranks|
      invariant |elected| == r && |aliveCivilians| == r && |moved| == r
      invariant forall q :: 0 <= q < r ==>
                  |pops[q]| == |inputs[q].civilianDraws| &&
                  moved[q] == CivilianPhase(pops[q], inputs[q].civilianDraws, step) &&
                  elected[q] == Elect(moved[q], inputs[q].schedule) &&
                  aliveCivilians[q] == Count(moved[q], LiveCivilian)
      invariant forall q :: 0 <= q < r ==> ranks[q][..] == moved[q]
      invariant forall q :: r <= q < |ranks| ==> ranks[q][..] == pops[q]
    {
      var alive, distress := CivilianRank(ranks[r], inputs[r], step);
      elected := elected + [distress];
      moved := moved + [ranks[r][..]];
      aliveCivilians := aliveCivilians + [alive];
    }
  }

  /** The rescuer pass and the last pass on every rank, each with the
      distress pair it received. */
  method FinishStage(last: LastPass, ranks: seq<array<Agent>>, inputs: seq<RankInput>, received: seq<Distress>, step: nat)
    returns (rescued: seq<nat>)
    requires RanksFit(ranks, inputs) && |received| == |ranks|
    modifies set r | 0 <= r < |ranks| :: ranks[r]
    ensures |rescued| == |ranks|
    ensures forall q :: 0 <= q < |ranks| ==>
              var after := RescuerPhase(old(ranks[q][..]), inputs[q].rescuerDraws, received[q]);
              ranks[q][..] == LastAgents(last, after, received[q]) &&
              rescued[q] == LastCount(last, after, received[q], step)
  {
    rescued := [];
    for r := 0 to |ranks|
      invariant |rescued| == r
      invariant forall q :: 0 <= q < r ==>
                  var after := RescuerPhase(old(ranks[q][..]), inputs[q].rescuerDraws, received[q]);
                  ranks[q][..] == LastAgents(last, after, received[q]) &&
                  rescued[q] == LastCount(last, after, received[q], step)
      invariant forall q :: r <= q < |ranks| ==> ranks[q][..] == old(ranks[q][..])
    {
      var count := FinishRank(last, ranks[r], inputs[r].rescuerDraws, received[r], step, inputs[r].schedule);
      rescued := rescued + [count];
    }
  }

  /** One time step on every rank: the civilian pass on each rank, the
      broadcast, the rescuer pass and the last pass on each rank, the
      reduction. Every rank ends with exactly what `Step` says. */
  method StepAllRanks(last: LastPass, ranks: seq<array<Agent>>, inputs: seq<RankInput>, step: nat)
    returns (aliveCivilians: seq<nat>, received: seq<Distress>, rescued: seq<nat>, totals: seq<int>)
    requires RanksFit(ranks, inputs)
    modifies set r | 0 <= r < |ranks| :: ranks[r]
    ensures var out := Step(last, old(Snapshot(ranks)), inputs, step);
            |aliveCivilians| == |received| == |rescued| == |totals| == |ranks| &&
            forall r :: 0 <= r < |ranks| ==>
              ranks[r][..] == out[r].agents && aliveCivilians[r] == out[r].aliveCivilians &&
              received[r] == out[r].received && rescued[r] == out[r].rescued && totals[r] == out[r].total
  {
    ghost var pops := Snapshot(ranks);
    assert WellFormed(pops, inputs);
    var elected;
    elected, aliveCivilians := CivilianStage(ranks, inputs, step);
    assert elected == Elections(pops, inputs, step);

    // MPI_Bcast(distress, 2, MPI_INT, 0, MPI_COMM_WORLD)
    received := Broadcast(elected);

    rescued := FinishStage(last, ranks, inputs, received, step);
    var local := seq(|rescued|, r requires 0 <= r < |rescued| => rescued[r] as int);
    assert local == LocalCounts(last, pops, inputs, received, step);

    // MPI_Reduce(&rescued, &total, 1, MPI_INT, MPI_SUM, 0, MPI_COMM_WORLD)
    totals := Reduce(local);
  }
}
