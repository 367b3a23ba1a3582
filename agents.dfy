/** The agent record, its creation, and the per-agent update rules of the
    three passes of a time step. The passes themselves are loops over an
    array of agents (modules SequentialStep and ThreadedStep); the functions
    here say what each loop iteration does to its own agent, and the
    `...Phase` functions say what a whole pass does to the population. */
module Agents {
  import opened Grid

  /** Number of agents every worker creates (AGENT_COUNT). */
  const AgentCount: nat := 100000

  /** One person of the simulation: `id` is its creation index and
      `isRescue` its role, rescuer or civilian. */
  datatype Agent = Agent(id: int, x: int, y: int, isRescue: bool, isAlive: bool)

  /** The two raw `rand()` results one agent draws for a random step:
      the first yields dx, the second dy. */
  datatype Draw = Draw(rx: nat, ry: nat)

  /** The two-int distress buffer. (-1, -1) means that no civilian
      reported distress in this step. */
  datatype Distress = Distress(x: int, y: int)

  const NoDistress := Distress(-1, -1)

  /** A distress buffer is either the sentinel or an in-grid cell. */
  predicate IsSignal(d: Distress)
  {
    d == NoDistress || InGrid(d.x, d.y)
  }

  predicate LiveCivilian(ag: Agent)
  {
    ag.isAlive && !ag.isRescue
  }

  predicate AgentInGrid(ag: Agent)
  {
    InGrid(ag.x, ag.y)
  }

  function Position(ag: Agent): Distress
  {
    Distress(ag.x, ag.y)
  }

  // ---------------------------------------------------------------- creation

  /** Agent `i` as the initialisation loop creates it from two `rand()`
      results: a rescuer when i is a multiple of 4, alive, somewhere in the grid. */
  function NewAgent(i: nat, rx: nat, ry: nat): (ag: Agent)
    ensures ag.id == i
    ensures ag.isRescue <==> i % 4 == 0
    ensures ag.isAlive && AgentInGrid(ag)
  {
    Agent(i, rx % GridSize, ry % GridSize, i % 4 == 0, true)
  }

  /** The initialisation loop: AGENT_COUNT agents pushed in id order, each
      drawing its x and then its y from `draws`. */
  method InitAgents(draws: seq<nat>) returns (agents: array<Agent>)
    requires |draws| == 2 * AgentCount
    ensures fresh(agents) && agents.Length == AgentCount
    ensures forall i :: 0 <= i < AgentCount ==>
              agents[i] == NewAgent(i, draws[2 * i], draws[2 * i + 1])
    ensures forall i :: 0 <= i < AgentCount ==>
              agents[i].id == i && (agents[i].isRescue <==> i % 4 == 0) &&
              agents[i].isAlive && AgentInGrid(agents[i])
  {
    var population: seq<Agent> := [];
    for i := 0 to AgentCount
      invariant |population| == i
      invariant forall j :: 0 <= j < i ==> population[j] == NewAgent(j, draws[2 * j], draws[2 * j + 1])
    {
      var isRescue := i % 4 == 0;
      var x := draws[2 * i] % GridSize;
      var y := draws[2 * i + 1] % GridSize;
      population := population + [Agent(i, x, y, isRescue, true)];
    }
    agents := new Agent[AgentCount](j requires 0 <= j < AgentCount => population[j]);
  }

  // ------------------------------------------------------- per-agent rules

  /** The clamped random step on both axes. */
  function RandomStep(ag: Agent, d: Draw): (r: Agent)
    ensures r.id == ag.id && r.isRescue == ag.isRescue && r.isAlive == ag.isAlive
    ensures AgentInGrid(r)
    ensures AgentInGrid(ag) ==> Abs(r.x - ag.x) <= 1 && Abs(r.y - ag.y) <= 1
  {
    ag.(x := RandomWalk(ag.x, d.rx), y := RandomWalk(ag.y, d.ry))
  }

  /** `move_toward(a, tx, ty)`: one cell toward the target on each axis. */
  function Pursue(ag: Agent, tx: int, ty: int): (r: Agent)
    ensures r.id == ag.id && r.isRescue == ag.isRescue && r.isAlive == ag.isAlive
    ensures Abs(r.x - ag.x) <= 1 && Abs(r.y - ag.y) <= 1
    ensures ag.x == tx ==> r.x == ag.x
    ensures ag.y == ty ==> r.y == ag.y
    ensures Chebyshev(r.x, r.y, tx, ty)
            == if Chebyshev(ag.x, ag.y, tx, ty) == 0 then 0 else Chebyshev(ag.x, ag.y, tx, ty) - 1
    ensures AgentInGrid(ag) && InGrid(tx, ty) ==> AgentInGrid(r)
  {
    PursuitShortensDistance(ag.x, ag.y, tx, ty);
    ag.(x := StepToward(ag.x, tx), y := StepToward(ag.y, ty))
  }

  /** `move_toward` on the agent held in slot `i` of the array. */
  method MoveToward(a: array<Agent>, i: nat, tx: int, ty: int)
    requires i < a.Length
    modifies a
    ensures a[..] == old(a[..])[i := Pursue(old(a[i]), tx, ty)]
  {
    if a[i].x < tx {
      a[i] := a[i].(x := a[i].x + 1);
    } else if a[i].x > tx {
      a[i] := a[i].(x := a[i].x - 1);
    }
    if a[i].y < ty {
      a[i] := a[i].(y := a[i].y + 1);
    } else if a[i].y > ty {
      a[i] := a[i].(y := a[i].y - 1);
    }
  }

  /** The clamped random step `x = max(0, min(GRID_SIZE - 1, x + dx))`,
      then the same for y, applied to the agent in slot `i`. */
  method RandomMove(a: array<Agent>, i: nat, d: Draw)
    requires i < a.Length
    modifies a
    ensures a[..] == old(a[..])[i := RandomStep(old(a[i]), d)]
  {
    var dx := Delta(d.rx);
    var dy := Delta(d.ry);
    a[i] := a[i].(x := Max(0, Min(GridSize - 1, a[i].x + dx)));
    a[i] := a[i].(y := Max(0, Min(GridSize - 1, a[i].y + dy)));
  }

  /** One iteration of the civilian pass: a live civilian takes a clamped
      random step and dies if it lands on a disaster cell of `step`; dead
      agents and rescuers are left as they are. */
  function CivilianUpdate(ag: Agent, d: Draw, step: nat): (r: Agent)
    ensures r.id == ag.id && r.isRescue == ag.isRescue
    ensures !LiveCivilian(ag) ==> r == ag
    ensures LiveCivilian(ag) ==> AgentInGrid(r) && (r.isAlive <==> !IsDisasterCell(r.x, r.y, step))
    ensures LiveCivilian(ag) && AgentInGrid(ag) ==> Abs(r.x - ag.x) <= 1 && Abs(r.y - ag.y) <= 1
    ensures r.isAlive ==> ag.isAlive
    ensures LiveCivilian(r) ==> AgentInGrid(r) && !IsDisasterCell(r.x, r.y, step)
  {
    if !ag.isAlive || ag.isRescue then ag
    else
      var moved := RandomStep(ag, d);
      if IsDisasterCell(moved.x, moved.y, step) then moved.(isAlive := false) else moved
  }

  /** The body of the civilian pass for the live civilian in slot `i`: the
      random move, then death on a disaster cell. Reports whether it survived. */
  method MoveCivilian(a: array<Agent>, i: nat, d: Draw, step: nat) returns (survived: bool)
    requires i < a.Length && LiveCivilian(a[i])
    modifies a
    ensures a[..] == old(a[..])[i := CivilianUpdate(old(a[i]), d, step)]
    ensures survived <==> LiveCivilian(a[i])
  {
    RandomMove(a, i, d);
    if IsDisasterCell(a[i].x, a[i].y, step) {
      a[i] := a[i].(isAlive := false);
      survived := false;
    } else {
      survived := true;
    }
  }

  /** The part of one civilian-pass iteration that touches the agent in
      slot `i`: skip the dead, move a live civilian and check the disaster
      zone, leave rescuers alone. Reports whether a civilian survived, which
      is when the loop counts it and offers it to the election. */
  method CivilianIteration(a: array<Agent>, i: nat, d: Draw, step: nat) returns (survived: bool)
    requires i < a.Length
    modifies a
    ensures a[..] == old(a[..])[i := CivilianUpdate(old(a[i]), d, step)]
    ensures survived <==> LiveCivilian(a[i])
  {
    if !a[i].isAlive {
      return false;
    }
    if !a[i].isRescue {
      survived := MoveCivilian(a, i, d, step);
    } else {
      survived := false;
    }
  }

  /** One iteration of the rescuer pass: a live rescuer pursues a valid
      distress cell (first component >= 0), or takes a random step when there
      is none; every other agent is left as it is. */
  function RescuerUpdate(ag: Agent, d: Draw, distress: Distress): (r: Agent)
    ensures r.id == ag.id && r.isRescue == ag.isRescue && r.isAlive == ag.isAlive
    ensures !(ag.isRescue && ag.isAlive) ==> r == ag
    ensures ag.isRescue && ag.isAlive && IsSignal(distress) && AgentInGrid(ag) ==>
              AgentInGrid(r) && Abs(r.x - ag.x) <= 1 && Abs(r.y - ag.y) <= 1
    ensures ag.isRescue && ag.isAlive && distress.x >= 0 ==>
              Chebyshev(r.x, r.y, distress.x, distress.y)
              == if Chebyshev(ag.x, ag.y, distress.x, distress.y) == 0 then 0
                 else Chebyshev(ag.x, ag.y, distress.x, distress.y) - 1
    ensures ag.isRescue && ag.isAlive && distress.x < 0 ==> r == RandomStep(ag, d)
  {
    if ag.isRescue && ag.isAlive then
      if distress.x >= 0 then Pursue(ag, distress.x, distress.y) else RandomStep(ag, d)
    else ag
  }

  /** The test of the proximity rescue: a live civilian within Chebyshev
      distance 1 of a valid distress cell. */
  predicate ShouldRescue(ag: Agent, distress: Distress)
  {
    !ag.isRescue && ag.isAlive && distress.x >= 0 &&
    Abs(ag.x - distress.x) <= 1 && Abs(ag.y - distress.y) <= 1
  }

  /** `ShouldRescue` as a predicate on agents, for counting. */
  function Rescuable(distress: Distress): Agent -> bool
  {
    (ag: Agent) => ShouldRescue(ag, distress)
  }

  /** One iteration of the rescue pass: a rescued civilian is marked dead,
      nothing else changes. */
  function RescueUpdate(ag: Agent, distress: Distress): (r: Agent)
    ensures r.id == ag.id && r.x == ag.x && r.y == ag.y && r.isRescue == ag.isRescue
    ensures r.isAlive <==> ag.isAlive && !ShouldRescue(ag, distress)
    ensures distress.x < 0 ==> r == ag
  {
    if ShouldRescue(ag, distress) then ag.(isAlive := false) else ag
  }

  /** The test of `map_agents`: a live civilian standing on a disaster cell. */
  function ZoneCasualty(step: nat): Agent -> bool
  {
    (ag: Agent) => ag.isAlive && !ag.isRescue && IsDisasterCell(ag.x, ag.y, step)
  }

  // ------------------------------------------------------ whole passes

  /** The civilian pass over a whole population, agent by agent; nobody is
      added or lost. */
  function CivilianPhase(s: seq<Agent>, draws: seq<Draw>, step: nat): seq<Agent>
    requires |draws| == |s|
  {
    seq(|s|, i requires 0 <= i < |s| => CivilianUpdate(s[i], draws[i], step))
  }

  /** The rescuer pass over a whole population, agent by agent; nobody is
      added or lost. */
  function RescuerPhase(s: seq<Agent>, draws: seq<Draw>, distress: Distress): seq<Agent>
    requires |draws| == |s|
  {
    seq(|s|, i requires 0 <= i < |s| => RescuerUpdate(s[i], draws[i], distress))
  }

  /** The rescue pass over a whole population, agent by agent; nobody is
      added or lost. */
  function RescuePhase(s: seq<Agent>, distress: Distress): seq<Agent>
  {
    seq(|s|, i requires 0 <= i < |s| => RescueUpdate(s[i], distress))
  }

  predicate AllInGrid(s: seq<Agent>)
  {
    forall i :: 0 <= i < |s| ==> AgentInGrid(s[i])
  }

  /** Every live civilian of `s` is in the grid and off the disaster zone. */
  predicate SurvivorsSafe(s: seq<Agent>, step: nat)
  {
    forall i :: 0 <= i < |s| && LiveCivilian(s[i]) ==>
      AgentInGrid(s[i]) && !IsDisasterCell(s[i].x, s[i].y, step)
  }

  /** After the civilian pass every live civilian is a survivor of this step's
      move: in the grid and not on a disaster cell. */
  lemma CivilianPhaseSurvivors(s: seq<Agent>, draws: seq<Draw>, step: nat)
    requires |draws| == |s|
    ensures SurvivorsSafe(CivilianPhase(s, draws, step), step)
    ensures forall i :: 0 <= i < |s| ==>
              (LiveCivilian(CivilianPhase(s, draws, step)[i]) <==>
               LiveCivilian(s[i]) && !IsDisasterCell(RandomStep(s[i], draws[i]).x, RandomStep(s[i], draws[i]).y, step))
  {
  }
}
