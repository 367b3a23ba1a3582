/** The three passes of one time step in the pure-MPI build, each a
    single-threaded loop over the worker's agent array in index order. */
module SequentialStep {
  import opened Grid
  import opened Agents
  import opened Counting
  import opened Election
  import opened Phases

  /** Civilian movement and distress detection. Each live civilian takes the
      clamped random step given by its draw and dies on a disaster cell of
      `step`; the survivors are counted, and the first of them in index order
      writes its position into the distress buffer. */
  method CivilianPass(a: array<Agent>, draws: seq<Draw>, step: nat)
    returns (aliveCivilians: nat, distress: Distress)
    requires |draws| == a.Length
    modifies a
    ensures a[..] == CivilianPhase(old(a[..]), draws, step)
    ensures aliveCivilians == Count(a[..], LiveCivilian)
    ensures distress == Elect(a[..], Indices(a.Length))
    ensures IsSignal(distress)
    ensures distress == NoDistress <==> aliveCivilians == 0
    ensures distress != NoDistress ==>
              exists i :: 0 <= i < a.Length && LiveCivilian(a[i]) && distress == Position(a[i]) &&
                !IsDisasterCell(a[i].x, a[i].y, step) && forall j :: 0 <= j < i ==> !LiveCivilian(a[j])
  {
    ghost var pre := a[..];
    ghost var post := CivilianPhase(pre, draws, step);
    CivilianPhaseSurvivors(pre, draws, step);
    assert LiveInGrid(post);
    AdvanceEnds(post, pre);
    aliveCivilians, distress := 0, NoDistress;
    for i := 0 to a.Length
      invariant a[..] == Advance(post, pre, i)
      invariant aliveCivilians == Count(post[..i], LiveCivilian)
      invariant distress == Elect(post, Indices(i))
    {
      IndexIteration(post, i);
      AdvanceStep(post, pre, i);
      assert a[i] == pre[i];
      var survived := CivilianIteration(a, i, draws[i], step);
      if survived {
        aliveCivilians := aliveCivilians + 1;
        if distress.x == -1 {
          distress := Distress(a[i].x, a[i].y);
        }
      }
    }
    CivilianPassOutcome(pre, draws, step, aliveCivilians, distress);
    assert a[..] == post;
  }

  /** What the civilian loop leaves after its last index: every slot holds its
      updated agent, the counter is the number of survivors, and the first
      survivor in index order, if any, has signalled its cell. */
  lemma CivilianPassOutcome(pre: seq<Agent>, draws: seq<Draw>, step: nat, count: nat, distress: Distress)
    requires |draws| == |pre|
    requires count == Count(CivilianPhase(pre, draws, step)[..|pre|], LiveCivilian)
    requires distress == Elect(CivilianPhase(pre, draws, step), Indices(|pre|))
    ensures var post := CivilianPhase(pre, draws, step);
            Advance(post, pre, |pre|) == post &&
            count == Count(post, LiveCivilian) &&
            IsSignal(distress) &&
            (distress == NoDistress <==> count == 0) &&
            (distress != NoDistress ==>
               exists i :: 0 <= i < |post| && LiveCivilian(post[i]) && distress == Position(post[i]) &&
                 !IsDisasterCell(post[i].x, post[i].y, step) && forall j :: 0 <= j < i ==> !LiveCivilian(post[j]))
  {
    var post := CivilianPhase(pre, draws, step);
    AdvanceEnds(post, pre);
    assert post[..|pre|] == post;
    ElectInIndexOrderAfterCivilianPhase(pre, draws, step);
  }

  /** Rescuer movement: each live rescuer steps toward the broadcast distress
      cell when its first component is non-negative, and otherwise takes the
      clamped random step given by its draw. */
  method RescuerPass(a: array<Agent>, draws: seq<Draw>, distress: Distress)
    requires |draws| == a.Length
    modifies a
    ensures a[..] == RescuerPhase(old(a[..]), draws, distress)
  {
    for i := 0 to a.Length
      invariant forall j :: 0 <= j < i ==> a[j] == RescuerUpdate(old(a[j]), draws[j], distress)
      invariant forall j :: i <= j < a.Length ==> a[j] == old(a[j])
    {
      if a[i].isRescue && a[i].isAlive {
        if distress.x >= 0 {
          MoveToward(a, i, distress.x, distress.y);
        } else {
          RandomMove(a, i, draws[i]);
        }
      }
    }
  }

  /** Proximity rescue: every live civilian within Chebyshev distance 1 of a
      valid distress cell is marked dead and counted as rescued. */
  method RescuePass(a: array<Agent>, distress: Distress) returns (rescued: nat)
    modifies a
    ensures a[..] == RescuePhase(old(a[..]), distress)
    ensures rescued == Count(old(a[..]), Rescuable(distress))
    ensures rescued + Count(a[..], LiveCivilian) == Count(old(a[..]), LiveCivilian)
    ensures distress.x < 0 ==> rescued == 0 && a[..] == old(a[..])
  {
    ghost var pre := a[..];
    rescued := 0;
    for i := 0 to a.Length
      invariant forall j :: 0 <= j < i ==> a[j] == RescueUpdate(pre[j], distress)
      invariant forall j :: i <= j < a.Length ==> a[j] == pre[j]
      invariant rescued == Count(pre[..i], Rescuable(distress))
    {
      CountPrefix(pre, Rescuable(distress), i);
      if !a[i].isRescue && a[i].isAlive && distress.x >= 0 &&
         Abs(a[i].x - distress.x) <= 1 && Abs(a[i].y - distress.y) <= 1
      {
        a[i] := a[i].(isAlive := false);
        rescued := rescued + 1;
      }
    }
    assert pre[..a.Length] == pre;
    RescueAccounting(pre, distress);
  }
}
