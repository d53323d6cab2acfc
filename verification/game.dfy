/** The state of one `HoffmanGame` (game.py): the label matrix `mat`, the
    stasis matrix `P`, the ordered agent list and the three population
    counters, with the consistency invariant that ties the grid to the
    agent list. */
module Game {
  import opened Grid

  /** `mat` and `stasis` are dim × dim; `agents` holds (row, col) positions. */
  datatype World = World(
    dim: int,
    mat: Matrix,
    stasis: Matrix,
    agents: seq<Pos>,
    cMan: int,
    cMachine: int,
    cAi: int)

  /** Side length of the matrices: `range(dim)` is empty for a negative dim. */
  function Size(dim: int): nat {
    if dim < 0 then 0 else dim
  }

  /** Both matrices are square of the side `dim` and every agent is on the grid. */
  predicate WellFormed(w: World) {
    var n := Size(w.dim);
    && Square(w.mat, n)
    && Square(w.stasis, n)
    && forall k :: 0 <= k < |w.agents| ==> InGrid(n, w.agents[k])
  }

  /** Grid and agent list agree: every agent stands on an occupied cell, no
      two agents share a cell, there are exactly as many occupied cells as
      agents, and an empty cell carries stasis 0. */
  ghost predicate Consistent(w: World) {
    var n := Size(w.dim);
    && WellFormed(w)
    && (forall k :: 0 <= k < |w.agents| ==> Get(w.mat, w.agents[k]) != Empty)
    && (forall k, l :: 0 <= k < l < |w.agents| ==> w.agents[k] != w.agents[l])
    && Occupied(w.mat) == |w.agents|
    && (forall p :: InGrid(n, p) && Get(w.mat, p) == Empty ==> Get(w.stasis, p) == 0)
  }

  /** `HoffmanGame.__init__`: empty matrices, no agents, zero counters. The
      rate parameters are never read by any logic and are not part of the state. */
  function New(dim: int): (r: World)
    ensures r.dim == dim && WellFormed(r) && Consistent(r)
    ensures forall p :: InGrid(Size(dim), p) ==> Get(r.mat, p) == Empty && Get(r.stasis, p) == 0
    ensures |r.agents| == 0 && r.cMan == 0 && r.cMachine == 0 && r.cAi == 0
  {
    var n := Size(dim);
    var zeros := Zeros(n);
    EmptyMatrix(zeros);
    World(dim, zeros, zeros, [], 0, 0, 0)
  }
}
