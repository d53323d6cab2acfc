/** The tick loop of `HoffmanGame.run_simulation` (game.py): each tick
    shuffles the agent list, evaluates the birth/death hook (whose body is
    empty), and moves every agent index once in order. The random outcomes
    of one tick are a `TickDraw`. */
module Simulation {
  import opened Outcomes
  import opened Grid
  import opened Torus
  import opened Permutations
  import opened Game
  import opened Init
  import opened Movement

  /** The outcomes of one tick's calls to `random.shuffle`: the permutation
      applied to `agents`, and for each agent index the permutation applied
      to its four candidate moves. */
  datatype TickDraw = TickDraw(agentOrder: seq<int>, directions: seq<seq<int>>)

  /** Errors the tick loop can raise. */
  datatype SimError =
    /** `t % birth_death_interval` with an interval of 0 raises ZeroDivisionError. */
    | ZeroDivision

  /** A draw for a world of `n` agents. */
  predicate ValidDraw(d: TickDraw, n: nat) {
    && IsPermutation(d.agentOrder, n)
    && |d.directions| == n
    && forall k :: 0 <= k < n ==> IsPermutation(d.directions[k], 4)
  }

  predicate ValidDraws(draws: seq<TickDraw>, n: nat) {
    forall t :: 0 <= t < |draws| ==> ValidDraw(draws[t], n)
  }

  /** Population and grid contents that a tick must not change: number of
      agents, occupied cells, the three counters, and the multisets of
      labels and stasis values. */
  predicate SamePopulation(w: World, r: World) {
    && |r.agents| == |w.agents|
    && Occupied(r.mat) == Occupied(w.mat)
    && r.cMan == w.cMan && r.cMachine == w.cMachine && r.cAi == w.cAi
    && Contents(r.mat) == Contents(w.mat)
    && Contents(r.stasis) == Contents(w.stasis)
  }

  /** `random.shuffle(self.agents)`: the agent list is rearranged, nothing
      else changes. */
  function ShuffleAgents(w: World, perm: seq<int>): (r: World)
    requires WellFormed(w) && IsPermutation(perm, |w.agents|)
    ensures WellFormed(r) && r.dim == w.dim
    ensures multiset(r.agents) == multiset(w.agents)
    ensures r.mat == w.mat && r.stasis == w.stasis
    ensures r.cMan == w.cMan && r.cMachine == w.cMachine && r.cAi == w.cAi
  {
    PermuteMultiset(w.agents, perm);
    w.(agents := Permute(w.agents, perm))
  }

  /** `for idx in range(len(self.agents)): self._move_agent(idx)`, from index `k` on. */
  function StepAgents(w: World, directions: seq<seq<int>>, k: int): (r: World)
    requires WellFormed(w) && 0 <= k <= |w.agents| && |directions| == |w.agents|
    requires forall i :: 0 <= i < |directions| ==> IsPermutation(directions[i], 4)
    ensures WellFormed(r) && r.dim == w.dim && |r.agents| == |w.agents|
    ensures r.cMan == w.cMan && r.cMachine == w.cMachine && r.cAi == w.cAi
    decreases |w.agents| - k
  {
    if k == |w.agents| then w
    else StepAgents(Move(w, k, directions[k]), directions, k + 1)
  }

  /** One iteration `t` of the tick loop. The hook condition
      `t > 0 and t % birth_death_interval == 0` raises when the interval is
      0 and t > 0; when it holds, the hook body is empty. */
  function Tick(w: World, t: int, interval: int, draw: TickDraw): (r: Result<World, SimError>)
    requires WellFormed(w) && ValidDraw(draw, |w.agents|)
    ensures r.Failure? <==> t > 0 && interval == 0
    ensures r.Success? ==> WellFormed(r.value) && r.value.dim == w.dim && |r.value.agents| == |w.agents|
    ensures r.Success? ==> r.value.cMan == w.cMan && r.value.cMachine == w.cMachine && r.value.cAi == w.cAi
  {
    var shuffled := ShuffleAgents(w, draw.agentOrder);
    if t > 0 && interval == 0 then Failure(ZeroDivision)
    else Success(StepAgents(shuffled, draw.directions, 0))
  }

  /** Ticks t, t + 1, ..., t + |draws| - 1. It fails exactly when the
      interval is 0 and one of those ticks is positive. */
  function Simulate(w: World, t: int, interval: int, draws: seq<TickDraw>): (r: Result<World, SimError>)
    requires WellFormed(w) && ValidDraws(draws, |w.agents|)
    ensures r.Success? <==> interval != 0 || |draws| == 0 || t + |draws| <= 1
    ensures r.Success? ==> WellFormed(r.value) && r.value.dim == w.dim && |r.value.agents| == |w.agents|
    ensures r.Success? ==> r.value.cMan == w.cMan && r.value.cMachine == w.cMachine && r.value.cAi == w.cAi
    decreases |draws|
  {
    if |draws| == 0 then Success(w)
    else match Tick(w, t, interval, draws[0])
      case Failure(e) => Failure(e)
      case Success(w') => Simulate(w', t + 1, interval, draws[1..])
  }

  /** `run_simulation(time_steps, birth_death_interval)`: initialise the
      world, then run `time_steps` ticks from t = 0 (none when negative). */
  function RunSimulation(game: World, decisions: seq<seq<bool>>, timeSteps: int, interval: int,
                         draws: seq<TickDraw>): (r: Result<World, SimError>)
    requires WellFormed(game) && Square(decisions, Size(game.dim))
    requires |draws| == (if timeSteps < 0 then 0 else timeSteps)
    requires ValidDraws(draws, |InitializeWorld(game, decisions).agents|)
    ensures r.Success? <==> interval != 0 || timeSteps <= 1
  {
    Simulate(InitializeWorld(game, decisions), 0, interval, draws)
  }

  /** Shuffling the agent list keeps a consistent world consistent. */
  lemma ShufflePreservesConsistency(w: World, perm: seq<int>)
    requires WellFormed(w) && IsPermutation(perm, |w.agents|) && Consistent(w)
    ensures Consistent(ShuffleAgents(w, perm)) && SamePopulation(w, ShuffleAgents(w, perm))
  {
  }

  /** Moving agents k, k + 1, ... in turn keeps the world consistent and the population the same. */
  lemma {:induction false} StepAgentsPreserve(w: World, directions: seq<seq<int>>, k: int)
    requires WellFormed(w) && 0 <= k <= |w.agents| && |directions| == |w.agents|
    requires forall i :: 0 <= i < |directions| ==> IsPermutation(directions[i], 4)
    requires Consistent(w)
    ensures Consistent(StepAgents(w, directions, k)) && SamePopulation(w, StepAgents(w, directions, k))
    decreases |w.agents| - k
  {
    if k < |w.agents| {
      MovePreservesConsistency(w, k, directions[k]);
      StepAgentsPreserve(Move(w, k, directions[k]), directions, k + 1);
    }
  }

  /** A tick that does not raise keeps the world consistent and the population the same. */
  lemma TickPreserves(w: World, t: int, interval: int, draw: TickDraw)
    requires WellFormed(w) && ValidDraw(draw, |w.agents|) && Consistent(w)
    requires !(t > 0 && interval == 0)
    ensures Consistent(Tick(w, t, interval, draw).value)
    ensures SamePopulation(w, Tick(w, t, interval, draw).value)
  {
    ShufflePreservesConsistency(w, draw.agentOrder);
    StepAgentsPreserve(ShuffleAgents(w, draw.agentOrder), draw.directions, 0);
  }

  /** Across any number of ticks the world stays consistent and the number
      of agents, the occupied count, the counters and the multisets of
      labels and stasis values are unchanged. */
  lemma {:induction false} SimulatePreserves(w: World, t: int, interval: int, draws: seq<TickDraw>)
    requires WellFormed(w) && ValidDraws(draws, |w.agents|) && Consistent(w)
    requires interval != 0 || |draws| == 0 || t + |draws| <= 1
    ensures Consistent(Simulate(w, t, interval, draws).value)
    ensures SamePopulation(w, Simulate(w, t, interval, draws).value)
    decreases |draws|
  {
    if |draws| > 0 {
      TickPreserves(w, t, interval, draws[0]);
      var w' := Tick(w, t, interval, draws[0]).value;
      SimulatePreserves(w', t + 1, interval, draws[1..]);
    }
  }

  /** `run_simulation` on a fresh game: whenever it finishes, the world is
      consistent, every agent is a counted man, and the number of agents,
      the occupied count and the multiset of labels are those the
      initialisation produced. */
  lemma RunFromNew(dim: int, decisions: seq<seq<bool>>, timeSteps: int, interval: int, draws: seq<TickDraw>)
    requires Square(decisions, Size(dim))
    requires |draws| == (if timeSteps < 0 then 0 else timeSteps)
    requires ValidDraws(draws, |InitializeWorld(New(dim), decisions).agents|)
    requires interval != 0 || timeSteps <= 1
    ensures var start := InitializeWorld(New(dim), decisions);
      var r := RunSimulation(New(dim), decisions, timeSteps, interval, draws).value;
      && Consistent(r)
      && SamePopulation(start, r)
      && r.cMan == |r.agents| == Occupied(r.mat)
      && r.cMachine == 0 && r.cAi == 0
  {
    InitializeFromNew(dim, decisions);
    SimulatePreserves(InitializeWorld(New(dim), decisions), 0, interval, draws);
  }

  /** A 3 × 3 torus with one human at the centre, stasis 1. */
  function CentreWorld(): (w: World)
    ensures WellFormed(w) && w.dim == 3 && w.agents == [Pos(1, 1)]
  {
    var mat := [[0, 0, 0], [0, 1, 0], [0, 0, 0]];
    World(3, mat, mat, [Pos(1, 1)], 1, 0, 0)
  }

  /** With the candidates shuffled to up, left, down, right, the first
      candidate (0, 1) is empty, so `_move_agent(0)` steps there. */
  lemma CentreMove()
    ensures Move(CentreWorld(), 0, [0, 2, 1, 3]) == Relocate(CentreWorld(), 0, Pos(0, 1))
  {
    var w := CentreWorld();
    var order := [0, 2, 1, 3];
    var nb := [Pos(0, 1), Pos(2, 1), Pos(1, 0), Pos(1, 2)];
    assert Neighbors(3, Pos(1, 1)) == nb;
    assert Permute(nb, order)[0] == Pos(0, 1);
    var cs := Candidates(w, 0, order);
    assert cs[0] == Pos(0, 1);
    assert FirstVacant(w.mat, cs) == Some(0);
  }

  /** Shuffling a one-agent list leaves it as it is. */
  lemma CentreShuffle()
    ensures ShuffleAgents(CentreWorld(), [0]) == CentreWorld()
  {
    assert Permute(CentreWorld().agents, [0]) == CentreWorld().agents;
  }

  /** Moving the only agent is the whole agent loop. */
  lemma CentreSteps()
    ensures StepAgents(CentreWorld(), [[0, 2, 1, 3]], 0) == Relocate(CentreWorld(), 0, Pos(0, 1))
  {
    CentreMove();
    var m := Relocate(CentreWorld(), 0, Pos(0, 1));
    assert StepAgents(m, [[0, 2, 1, 3]], 1) == m;
  }

  /** The tick at t = 0 with that shuffle is exactly that one move. */
  lemma CentreTick()
    ensures Tick(CentreWorld(), 0, 100, TickDraw([0], [[0, 2, 1, 3]]))
         == Success(Relocate(CentreWorld(), 0, Pos(0, 1)))
  {
    CentreShuffle();
    CentreSteps();
  }

  /** With the candidates shuffled to up, left, down, right, one tick moves
      the centre agent up to (0, 1), carrying label and stasis and leaving
      (1, 1) empty. */
  lemma CentreMovesUp()
    ensures var r := Tick(CentreWorld(), 0, 100, TickDraw([0], [[0, 2, 1, 3]]));
      && r.Success?
      && r.value.agents == [Pos(0, 1)]
      && Get(r.value.mat, Pos(0, 1)) == Human && Get(r.value.stasis, Pos(0, 1)) == 1
      && Get(r.value.mat, Pos(1, 1)) == Empty && Get(r.value.stasis, Pos(1, 1)) == 0
  {
    CentreTick();
    var w := CentreWorld();
    assert Get(w.mat, Pos(1, 1)) == Human && Get(w.stasis, Pos(1, 1)) == 1;
  }
}
