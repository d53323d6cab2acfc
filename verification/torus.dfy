/** Wrap-around neighbourhood on the dim × dim torus: the four candidate
    cells an agent may step to (game.py, `_move_agent`). */
module Torus {
  import opened Grid

  /** Python's `a % n`. For a positive divisor Python's floor modulo and
      Dafny's Euclidean `%` agree. */
  function PyMod(a: int, n: int): (r: int)
    requires n > 0
    ensures 0 <= r < n
  {
    a % n
  }

  /** `b` is one step from `a` on a cycle of length `n`, where 0 and n - 1
      are joined. Stated without modular arithmetic. */
  predicate CyclicStep(n: int, a: int, b: int) {
    b == a + 1 || b == a - 1 || (a == 0 && b == n - 1) || (a == n - 1 && b == 0)
  }

  /** `q` differs from `p` by one cyclic step in one coordinate and agrees in the other. */
  predicate Adjacent(n: int, p: Pos, q: Pos) {
    (q.col == p.col && CyclicStep(n, p.row, q.row))
    || (q.row == p.row && CyclicStep(n, p.col, q.col))
  }

  /** Stepping forward from the last index lands on 0; stepping back from 0 lands on n - 1. */
  lemma WrapStep(n: int, a: int)
    requires 0 <= a < n
    ensures PyMod(a + 1, n) == (if a == n - 1 then 0 else a + 1)
    ensures PyMod(a - 1, n) == (if a == 0 then n - 1 else a - 1)
  {
  }

  /** The four candidate cells in the source's base order: up, down, left, right.
      Each lies on the grid and is adjacent to `p` on the torus. */
  function Neighbors(n: int, p: Pos): (r: seq<Pos>)
    requires n > 0 && InGrid(n, p)
    ensures |r| == 4
    ensures forall k :: 0 <= k < 4 ==> InGrid(n, r[k]) && Adjacent(n, p, r[k])
  {
    WrapStep(n, p.row);
    WrapStep(n, p.col);
    [ Pos(PyMod(p.row - 1, n), p.col), Pos(PyMod(p.row + 1, n), p.col),
      Pos(p.row, PyMod(p.col - 1, n)), Pos(p.row, PyMod(p.col + 1, n)) ]
  }

  /** Conversely, every grid cell adjacent to `p` is one of its four candidates. */
  lemma NeighborsComplete(n: int, p: Pos, q: Pos)
    requires n > 0 && InGrid(n, p) && InGrid(n, q)
    requires Adjacent(n, p, q)
    ensures q in Neighbors(n, p)
  {
    WrapStep(n, p.row);
    WrapStep(n, p.col);
  }

  /** Leaving the top row upward lands on the bottom row, leaving the last
      column rightward lands on column 0, and symmetrically. */
  lemma WrapAround(n: int, p: Pos)
    requires n > 0 && InGrid(n, p)
    ensures p.row == 0 ==> Neighbors(n, p)[0] == Pos(n - 1, p.col)
    ensures p.row == n - 1 ==> Neighbors(n, p)[1] == Pos(0, p.col)
    ensures p.col == 0 ==> Neighbors(n, p)[2] == Pos(p.row, n - 1)
    ensures p.col == n - 1 ==> Neighbors(n, p)[3] == Pos(p.row, 0)
  {
    WrapStep(n, p.row);
    WrapStep(n, p.col);
  }

  /** On a torus of side at least 2 no candidate is the agent's own cell. */
  lemma NeighborsLeaveCell(n: int, p: Pos)
    requires n >= 2 && InGrid(n, p)
    ensures forall k :: 0 <= k < 4 ==> Neighbors(n, p)[k] != p
  {
  }

  /** On a torus of side 2 up and down are the same cell, and so are left and right. */
  lemma SideTwoNeighbors(p: Pos)
    requires InGrid(2, p)
    ensures Neighbors(2, p) == [Pos(1 - p.row, p.col), Pos(1 - p.row, p.col),
                                Pos(p.row, 1 - p.col), Pos(p.row, 1 - p.col)]
  {
  }

  /** On a torus of side 1 every candidate is the agent's own cell. */
  lemma SingleCellNeighbors(p: Pos)
    requires InGrid(1, p)
    ensures forall k :: 0 <= k < 4 ==> Neighbors(1, p)[k] == p
  {
  }
}
