/** The map and reduce stages of the MapReduce build. Its civilian and
    rescuer passes are the `omp parallel for` loops of module ThreadedStep;
    in place of the proximity rescue it counts, without changing anything,
    the live civilians that stand on a disaster cell, and sums those counts
    at rank 0. */
module MapReduceStep {
  import opened Grid
  import opened Agents
  import opened Counting
  import opened Collectives

  /** `map_agents(agents, step)`: the number of live civilians on a disaster
      cell of `step`. It only reads the array. */
  method MapAgents(agents: array<Agent>, step: nat) returns (rescued: nat)
    ensures rescued == Count(agents[..], ZoneCasualty(step))
    ensures rescued <= agents.Length
    ensures rescued == 0 <==>
              forall i :: 0 <= i < agents.Length ==> !ZoneCasualty(step)(agents[i])
  {
    rescued := 0;
    for i := 0 to agents.Length
      invariant rescued == Count(agents[..i], ZoneCasualty(step))
    {
      CountPrefix(agents[..], ZoneCasualty(step), i);
      assert agents[..][..i] == agents[..i] && agents[..][..i + 1] == agents[..i + 1];
      var a := agents[i];
      if !a.isAlive {
        continue;
      }
      if !a.isRescue && IsDisasterCell(a.x, a.y, step) {
        rescued := rescued + 1;
      }
    }
    assert agents[..agents.Length] == agents[..];
    CountZeroIff(agents[..], ZoneCasualty(step));
  }

  /** `reduce_rescue_counts(local)` as the calling rank sees it: rank 0
      receives the sum of every rank's local count, the other ranks keep
      the 0 their `total_rescues` starts with. */
  function ReduceRescueCounts(local: seq<int>, rank: nat): (total: int)
    requires rank < |local|
    ensures rank == 0 ==> total == Sum(local)
    ensures rank != 0 ==> total == 0
  {
    Reduce(local)[rank]
  }

  /** After the civilian pass and the rescuer pass of the same step no live
      civilian stands on a disaster cell of that step: the civilian pass
      kills every civilian that lands on one, and the rescuer pass moves
      only rescuers. So the map count of the step is always 0. */
  lemma ZoneCountAfterPassesIsZero(s: seq<Agent>, cd: seq<Draw>, rd: seq<Draw>, distress: Distress, step: nat)
    requires |cd| == |s| && |rd| == |s|
    ensures Count(RescuerPhase(CivilianPhase(s, cd, step), rd, distress), ZoneCasualty(step)) == 0
  {
    var moved := CivilianPhase(s, cd, step);
    var t := RescuerPhase(moved, rd, distress);
    CivilianPhaseSurvivors(s, cd, step);
    forall i | 0 <= i < |t|
      ensures !ZoneCasualty(step)(t[i])
    {
      assert !LiveCivilian(moved[i]) || !IsDisasterCell(moved[i].x, moved[i].y, step);
      assert LiveCivilian(t[i]) ==> t[i] == moved[i];
    }
    CountZeroIff(t, ZoneCasualty(step));
  }

  /** In this build `isAlive` only ever goes from true to false, and only in
      the disaster check of the civilian pass: whoever dies in a step was a
      live civilian whose move ended on a disaster cell; ids, roles and the
      positions of the dead do not change. */
  lemma DeathOnlyInDisasterCheck(s: seq<Agent>, cd: seq<Draw>, rd: seq<Draw>, distress: Distress, step: nat)
    requires |cd| == |s| && |rd| == |s|
    ensures var t := RescuerPhase(CivilianPhase(s, cd, step), rd, distress);
            |t| == |s| &&
            forall i :: 0 <= i < |s| ==>
              t[i].id == s[i].id && t[i].isRescue == s[i].isRescue &&
              (t[i].isAlive ==> s[i].isAlive) &&
              (!s[i].isAlive ==> t[i] == s[i]) &&
              (s[i].isAlive && !t[i].isAlive ==>
                 LiveCivilian(s[i]) && IsDisasterCell(RandomStep(s[i], cd[i]).x, RandomStep(s[i], cd[i]).y, step) &&
                 t[i] == RandomStep(s[i], cd[i]).(isAlive := false))
  {
  }
}
