/** The three passes of one time step in the MPI + OpenMP build. Each pass is
    an `omp parallel for`: its iterations run on several threads in an order
    nobody controls. The model runs the same loop body along an arbitrary
    schedule `order` (every index exactly once). Each iteration touches only
    its own agent, apart from the `reduction(+:...)` counters, whose final
    value is the plain sum, and the distress election, guarded by
    `omp critical`, which the first surviving civilian along the schedule
    wins. The contracts show that the agent array comes out exactly as the
    sequential pass leaves it, whatever the schedule. */
module ThreadedStep {
  import opened Grid
  import opened Agents
  import opened Counting
  import opened Election
  import opened Phases

  /** Civilian movement with `reduction(+:alive_civilians)` and the critical
      section that elects the distress cell. */
  method CivilianPass(a: array<Agent>, draws: seq<Draw>, step: nat, order: seq<nat>)
    returns (aliveCivilians: nat, distress: Distress)
    requires |draws| == a.Length && IsSchedule(order, a.Length)
    modifies a
    ensures a[..] == CivilianPhase(old(a[..]), draws, step)
    ensures aliveCivilians == Count(a[..], LiveCivilian)
    ensures distress == Elect(a[..], order)
    ensures IsSignal(distress)
    ensures distress == NoDistress <==> aliveCivilians == 0
    ensures distress != NoDistress ==>
              exists i :: 0 <= i < a.Length && LiveCivilian(a[i]) && distress == Position(a[i]) &&
                !IsDisasterCell(a[i].x, a[i].y, step)
  {
    ghost var pre := a[..];
    ghost var post := CivilianPhase(pre, draws, step);
    CivilianPhaseSurvivors(pre, draws, step);
    assert LiveInGrid(post);
    BlendEnds(post, pre, {});
    aliveCivilians, distress := 0, NoDistress;
    for k := 0 to a.Length
      invariant a[..] == Blend(post, pre, Visited(order, k))
      invariant aliveCivilians == |WhereIn(post, LiveCivilian, Visited(order, k))|
      invariant distress == Elect(post, order[..k])
    {
      var i := order[k];
      ScheduleIteration(post, order, k);
      BlendAdd(post, pre, Visited(order, k), i);
      assert a[i] == pre[i];
      var survived := CivilianIteration(a, i, draws[i], step);
      if survived {
        aliveCivilians := aliveCivilians + 1;
        // omp critical
        if distress.x == -1 {
          distress := Distress(a[i].x, a[i].y);
        }
      }
    }
    CivilianPassOutcome(pre, draws, step, order, aliveCivilians, distress);
    assert a[..] == post;
  }

  /** What the civilian loop leaves once the whole schedule has run: every
      slot holds its updated agent, the reduced counter is the number of
      survivors, and the election along the full schedule has signalled a
      surviving civilian exactly when there is one. */
  lemma CivilianPassOutcome(pre: seq<Agent>, draws: seq<Draw>, step: nat, order: seq<nat>, count: nat, distress: Distress)
    requires |draws| == |pre| && IsSchedule(order, |pre|)
    requires count == |WhereIn(CivilianPhase(pre, draws, step), LiveCivilian, Visited(order, |pre|))|
    requires distress == Elect(CivilianPhase(pre, draws, step), order[..|pre|])
    ensures var post := CivilianPhase(pre, draws, step);
            Blend(post, pre, Visited(order, |pre|)) == post &&
            count == Count(post, LiveCivilian) &&
            distress == Elect(post, order) &&
            IsSignal(distress) &&
            (distress == NoDistress <==> count == 0) &&
            (distress != NoDistress ==>
               exists i :: 0 <= i < |post| && LiveCivilian(post[i]) && distress == Position(post[i]) &&
                 !IsDisasterCell(post[i].x, post[i].y, step))
  {
    var post := CivilianPhase(pre, draws, step);
    assert order[..|pre|] == order;
    VisitedAll(order, |pre|);
    BlendEnds(post, pre, Visited(order, |pre|));
    WhereInAll(post, LiveCivilian, Visited(order, |pre|));
    ElectAfterCivilianPhase(pre, draws, step, order);
  }

  /** Rescuer movement, one independent iteration per agent. */
  method RescuerPass(a: array<Agent>, draws: seq<Draw>, distress: Distress, order: seq<nat>)
    requires |draws| == a.Length && IsSchedule(order, a.Length)
    modifies a
    ensures a[..] == RescuerPhase(old(a[..]), draws, distress)
  {
    for k := 0 to a.Length
      invariant forall j :: 0 <= j < a.Length ==>
                  a[j] == if j in Visited(order, k) then RescuerUpdate(old(a[j]), draws[j], distress) else old(a[j])
    {
      var i := order[k];
      VisitedSnoc(order, a.Length, k);
      if a[i].isRescue && a[i].isAlive {
        if distress.x >= 0 {
          MoveToward(a, i, distress.x, distress.y);
        } else {
          RandomMove(a, i, draws[i]);
        }
      }
    }
    VisitedAll(order, a.Length);
  }

  /** Proximity rescue with `reduction(+:rescued)`. */
  method RescuePass(a: array<Agent>, distress: Distress, order: seq<nat>) returns (rescued: nat)
    requires IsSchedule(order, a.Length)
    modifies a
    ensures a[..] == RescuePhase(old(a[..]), distress)
    ensures rescued == Count(old(a[..]), Rescuable(distress))
    ensures rescued + Count(a[..], LiveCivilian) == Count(old(a[..]), LiveCivilian)
    ensures distress.x < 0 ==> rescued == 0 && a[..] == old(a[..])
  {
    ghost var pre := a[..];
    rescued := 0;
    for k := 0 to a.Length
      invariant forall j :: 0 <= j < a.Length ==> a[j] == if j in Visited(order, k) then RescueUpdate(pre[j], distress) else pre[j]
      invariant rescued == |WhereIn(pre, Rescuable(distress), Visited(order, k))|
    {
      var i := order[k];
      VisitedSnoc(order, a.Length, k);
      WhereInAdd(pre, Rescuable(distress), Visited(order, k), i);
      if !a[i].isRescue && a[i].isAlive && distress.x >= 0 &&
         Abs(a[i].x - distress.x) <= 1 && Abs(a[i].y - distress.y) <= 1
      {
        a[i] := a[i].(isAlive := false);
        rescued := rescued + 1;
      }
    }
    VisitedAll(order, a.Length);
    WhereInAll(pre, Rescuable(distress), Visited(order, a.Length));
    RescueAccounting(pre, distress);
  }
}
