/** Facts about whole passes over a population, shared by every build:
    what the counters of a pass amount to, what a pass leaves untouched, and
    which invariants of the population a pass preserves. */
module Phases {
  import opened Grid
  import opened Agents
  import opened Counting

  /** The rescue pass: the civilians it rescues are exactly the live
      civilians it turns dead, so `rescued` plus the live civilians left equals
      the live civilians before; with the sentinel it rescues nobody and
      changes nothing. */
  lemma RescueAccounting(s: seq<Agent>, distress: Distress)
    ensures Count(RescuePhase(s, distress), LiveCivilian) + Count(s, Rescuable(distress))
            == Count(s, LiveCivilian)
    ensures distress.x < 0 ==> Count(s, Rescuable(distress)) == 0 && RescuePhase(s, distress) == s
  {
    var t := RescuePhase(s, distress);
    CountSplit(s, t, LiveCivilian, LiveCivilian, Rescuable(distress));
    CountZeroIff(s, Rescuable(distress));
  }

  /** The rescue pass marks exactly the live civilians within Chebyshev
      distance 1 of a valid distress cell, and moves nobody. */
  lemma RescueMarksNeighbours(s: seq<Agent>, distress: Distress)
    ensures |RescuePhase(s, distress)| == |s|
    ensures forall i :: 0 <= i < |s| ==>
              var r := RescuePhase(s, distress)[i];
              r.id == s[i].id && r.x == s[i].x && r.y == s[i].y && r.isRescue == s[i].isRescue &&
              (LiveCivilian(s[i]) && !r.isAlive <==>
                 distress.x >= 0 && Chebyshev(s[i].x, s[i].y, distress.x, distress.y) <= 1 && LiveCivilian(s[i])) &&
              (r.isAlive ==> s[i].isAlive) &&
              (!LiveCivilian(s[i]) ==> r == s[i])
  {
  }

  /** The indices of the civilians that survive this step's move: alive
      before it, and off every disaster cell after their clamped random step. */
  function Survivors(s: seq<Agent>, draws: seq<Draw>, step: nat): set<nat>
    requires |draws| == |s|
  {
    set i: nat | i < |s| && LiveCivilian(s[i]) &&
      !IsDisasterCell(RandomWalk(s[i].x, draws[i].rx), RandomWalk(s[i].y, draws[i].ry), step)
  }

  /** `alive_civilians` of the civilian pass, which counts the live civilians
      after the pass, is the number of civilians that survived the move. */
  lemma AliveCiviliansAreSurvivors(s: seq<Agent>, draws: seq<Draw>, step: nat)
    requires |draws| == |s|
    ensures Count(CivilianPhase(s, draws, step), LiveCivilian) == |Survivors(s, draws, step)|
  {
    var t := CivilianPhase(s, draws, step);
    CountIsCardinality(t, LiveCivilian);
    assert Where(t, LiveCivilian) == Survivors(s, draws, step);
  }

  /** The rescuer pass moves only live rescuers: civilians and dead agents
      keep every field, and nobody's role or liveness changes. With a valid
      distress cell every live rescuer ends one Chebyshev step nearer to it
      (or stays on it); with the sentinel it takes its clamped random step. */
  lemma RescuerPhaseMovesOnlyRescuers(s: seq<Agent>, draws: seq<Draw>, distress: Distress)
    requires |draws| == |s|
    ensures |RescuerPhase(s, draws, distress)| == |s|
    ensures forall i :: 0 <= i < |s| ==>
              var r := RescuerPhase(s, draws, distress)[i];
              r.id == s[i].id && r.isRescue == s[i].isRescue && r.isAlive == s[i].isAlive &&
              (!s[i].isRescue || !s[i].isAlive ==> r == s[i])
    ensures forall i :: 0 <= i < |s| && s[i].isRescue && s[i].isAlive && distress.x >= 0 ==>
              var r := RescuerPhase(s, draws, distress)[i];
              Chebyshev(r.x, r.y, distress.x, distress.y)
              == if Chebyshev(s[i].x, s[i].y, distress.x, distress.y) == 0 then 0
                 else Chebyshev(s[i].x, s[i].y, distress.x, distress.y) - 1
    ensures forall i :: 0 <= i < |s| && s[i].isRescue && s[i].isAlive && distress.x < 0 ==>
              RescuerPhase(s, draws, distress)[i] == RandomStep(s[i], draws[i])
    ensures Count(RescuerPhase(s, draws, distress), LiveCivilian) == Count(s, LiveCivilian)
  {
    var t := RescuerPhase(s, draws, distress);
    CountSame(s, t, LiveCivilian, LiveCivilian);
  }

  /** In-grid populations stay in the grid through the three passes, as long
      as the distress buffer is the sentinel or an in-grid cell. */
  lemma PhasesKeepGrid(s: seq<Agent>, cd: seq<Draw>, rd: seq<Draw>, distress: Distress, step: nat)
    requires |cd| == |s| && |rd| == |s|
    requires AllInGrid(s) && IsSignal(distress)
    ensures AllInGrid(CivilianPhase(s, cd, step))
    ensures AllInGrid(RescuerPhase(CivilianPhase(s, cd, step), rd, distress))
    ensures AllInGrid(RescuePhase(RescuerPhase(CivilianPhase(s, cd, step), rd, distress), distress))
  {
  }
}
