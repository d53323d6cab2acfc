/** `HoffmanGame._initialize_world` (game.py): visit every cell in row-major
    order and place a human on it when the random draw says so. The draw
    `random.uniform(0, 1) < p_dense` for cell (i, j) is the parameter
    `decisions[i][j]`. */
module Init {
  import opened Grid
  import opened Game

  /** Put a human on `p`: label Human, stasis 1, appended to the agent list, one more man. */
  function Mark(w: World, p: Pos): (r: World)
    requires WellFormed(w) && InGrid(Size(w.dim), p)
    ensures WellFormed(r) && r.dim == w.dim
    ensures r.agents == w.agents + [p]
    ensures Get(r.mat, p) == Human && Get(r.stasis, p) == 1
    ensures forall q :: InGrid(Size(w.dim), q) && q != p ==>
      Get(r.mat, q) == Get(w.mat, q) && Get(r.stasis, q) == Get(w.stasis, q)
    ensures r.cMan == w.cMan + 1 && r.cMachine == w.cMachine && r.cAi == w.cAi
  {
    w.(mat := Set(w.mat, p, Human), stasis := Set(w.stasis, p, 1),
       agents := w.agents + [p], cMan := w.cMan + 1)
  }

  /** One iteration of the inner loop, at cell (i, j). */
  function Visit(w: World, decisions: seq<seq<bool>>, i: int, j: int): World
    requires WellFormed(w) && Square(decisions, Size(w.dim))
    requires InGrid(Size(w.dim), Pos(i, j))
  {
    if decisions[i][j] then Mark(w, Pos(i, j)) else w
  }

  /** The inner loop over columns j .. dim-1 of row i. Agents are only
      appended, and each appended agent adds one to `c_man`. */
  function InitRow(w: World, decisions: seq<seq<bool>>, i: int, j: int): (r: World)
    requires WellFormed(w) && Square(decisions, Size(w.dim))
    requires 0 <= i < Size(w.dim) && 0 <= j <= Size(w.dim)
    ensures WellFormed(r) && r.dim == w.dim
    ensures |r.agents| >= |w.agents| && r.agents[..|w.agents|] == w.agents
    ensures r.cMan == w.cMan + (|r.agents| - |w.agents|)
    ensures r.cMachine == w.cMachine && r.cAi == w.cAi
    decreases Size(w.dim) - j
  {
    if j == Size(w.dim) then w
    else InitRow(Visit(w, decisions, i, j), decisions, i, j + 1)
  }

  /** The outer loop over rows i .. dim-1. */
  function InitRows(w: World, decisions: seq<seq<bool>>, i: int): (r: World)
    requires WellFormed(w) && Square(decisions, Size(w.dim))
    requires 0 <= i <= Size(w.dim)
    ensures WellFormed(r) && r.dim == w.dim
    ensures |r.agents| >= |w.agents| && r.agents[..|w.agents|] == w.agents
    ensures r.cMan == w.cMan + (|r.agents| - |w.agents|)
    ensures r.cMachine == w.cMachine && r.cAi == w.cAi
    decreases Size(w.dim) - i
  {
    if i == Size(w.dim) then w
    else InitRows(InitRow(w, decisions, i, 0), decisions, i + 1)
  }

  /** `_initialize_world` on any well-formed state: it only appends agents,
      counts each one as a man, and leaves the other counters alone. */
  function InitializeWorld(w: World, decisions: seq<seq<bool>>): (r: World)
    requires WellFormed(w) && Square(decisions, Size(w.dim))
    ensures WellFormed(r) && r.dim == w.dim
    ensures |r.agents| >= |w.agents| && r.agents[..|w.agents|] == w.agents
    ensures r.cMan == w.cMan + (|r.agents| - |w.agents|)
    ensures r.cMachine == w.cMachine && r.cAi == w.cAi
  {
    InitRows(w, decisions, 0)
  }

  /** The state reached from `New` once every cell before (i, j) in
      row-major order has been visited. */
  ghost predicate Partial(w: World, decisions: seq<seq<bool>>, i: int, j: int) {
    var n := Size(w.dim);
    var here := Pos(i, j);
    && WellFormed(w)
    && Square(decisions, n)
    && (forall p :: InGrid(n, p) ==>
          Get(w.mat, p) == (if RowMajorLess(p, here) && decisions[p.row][p.col] then Human else Empty))
    && (forall p :: InGrid(n, p) ==>
          Get(w.stasis, p) == (if RowMajorLess(p, here) && decisions[p.row][p.col] then 1 else 0))
    && (forall k :: 0 <= k < |w.agents| ==>
          RowMajorLess(w.agents[k], here) && decisions[w.agents[k].row][w.agents[k].col])
    && (forall k, l :: 0 <= k < l < |w.agents| ==> RowMajorLess(w.agents[k], w.agents[l]))
    && (forall p :: InGrid(n, p) && RowMajorLess(p, here) && decisions[p.row][p.col] ==> p in w.agents)
    && w.cMan == |w.agents| && w.cMachine == 0 && w.cAi == 0
    && Occupied(w.mat) == |w.agents|
  }

  lemma VisitPartial(w: World, decisions: seq<seq<bool>>, i: int, j: int)
    requires Partial(w, decisions, i, j)
    requires InGrid(Size(w.dim), Pos(i, j))
    ensures Partial(Visit(w, decisions, i, j), decisions, i, j + 1)
  {
    var here := Pos(i, j);
    assert forall p :: RowMajorLess(p, Pos(i, j + 1)) <==> RowMajorLess(p, here) || p == here;
    if decisions[i][j] {
      var r := Mark(w, here);
      SetOccupied(w.mat, here, Human);
      forall p | InGrid(Size(w.dim), p) && RowMajorLess(p, Pos(i, j + 1)) && decisions[p.row][p.col]
        ensures p in r.agents
      {
        if p != here {
          assert p in w.agents;
        } else {
          assert r.agents[|w.agents|] == p;
        }
      }
    }
  }

  lemma {:induction false} InitRowPartial(w: World, decisions: seq<seq<bool>>, i: int, j: int)
    requires Partial(w, decisions, i, j)
    requires 0 <= i < Size(w.dim) && 0 <= j <= Size(w.dim)
    ensures Partial(InitRow(w, decisions, i, j), decisions, i, Size(w.dim))
    decreases Size(w.dim) - j
  {
    if j < Size(w.dim) {
      VisitPartial(w, decisions, i, j);
      InitRowPartial(Visit(w, decisions, i, j), decisions, i, j + 1);
    }
  }

  /** Finishing row i is the same as standing at the start of row i + 1. */
  lemma NextRow(w: World, decisions: seq<seq<bool>>, i: int)
    requires Partial(w, decisions, i, Size(w.dim))
    ensures Partial(w, decisions, i + 1, 0)
  {
  }

  /** Visiting all of row i takes the start of row i to the start of row i + 1. */
  lemma RowStep(w: World, decisions: seq<seq<bool>>, i: int)
    requires Partial(w, decisions, i, 0)
    requires 0 <= i < Size(w.dim)
    ensures Partial(InitRow(w, decisions, i, 0), decisions, i + 1, 0)
  {
    InitRowPartial(w, decisions, i, 0);
    NextRow(InitRow(w, decisions, i, 0), decisions, i);
  }

  lemma {:induction false} InitRowsPartial(w: World, decisions: seq<seq<bool>>, i: int)
    requires Partial(w, decisions, i, 0)
    requires 0 <= i <= Size(w.dim)
    ensures Partial(InitRows(w, decisions, i), decisions, Size(w.dim), 0)
    decreases Size(w.dim) - i
  {
    if i < Size(w.dim) {
      RowStep(w, decisions, i);
      InitRowsPartial(InitRow(w, decisions, i, 0), decisions, i + 1);
    }
  }

  /** `_initialize_world` on the fresh state of `__init__`: a cell is a human
      with stasis 1 exactly when its draw says so and is empty with stasis 0
      otherwise; every human cell appears exactly once in the agent list,
      which lists them in row-major order; `c_man` counts them; and the
      grid and agent list are consistent. */
  lemma InitializeFromNew(dim: int, decisions: seq<seq<bool>>)
    requires Square(decisions, Size(dim))
    ensures var r := InitializeWorld(New(dim), decisions);
      && Consistent(r)
      && r.cMan == |r.agents| && r.cMachine == 0 && r.cAi == 0
      && (forall p :: InGrid(Size(dim), p) ==>
            && Get(r.mat, p) == (if decisions[p.row][p.col] then Human else Empty)
            && Get(r.stasis, p) == (if decisions[p.row][p.col] then 1 else 0))
      && (forall k :: 0 <= k < |r.agents| ==>
            Get(r.mat, r.agents[k]) == Human && Get(r.stasis, r.agents[k]) == 1)
      && (forall p :: InGrid(Size(dim), p) && Get(r.mat, p) == Human ==>
            exists k :: 0 <= k < |r.agents| && r.agents[k] == p)
      && (forall k, l :: 0 <= k < |r.agents| && 0 <= l < |r.agents| && r.agents[k] == r.agents[l] ==> k == l)
      && (forall k, l :: 0 <= k < l < |r.agents| ==> RowMajorLess(r.agents[k], r.agents[l]))
  {
    var w := New(dim);
    var n := Size(dim);
    assert Partial(w, decisions, 0, 0);
    InitRowsPartial(w, decisions, 0);
    var r := InitializeWorld(w, decisions);
    assert forall p :: InGrid(n, p) ==> RowMajorLess(p, Pos(n, 0));
    forall p | InGrid(n, p) && Get(r.mat, p) == Human
      ensures exists k :: 0 <= k < |r.agents| && r.agents[k] == p
    {
      assert p in r.agents;
    }
  }
}
