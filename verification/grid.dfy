/** The two dim × dim integer matrices of the lattice: the label matrix
    (`mat`, 0 = empty, 1 = human) and the stasis matrix (`P`), together with
    the single-cell read and write every other module goes through. */
module Grid {

  /** A cell, addressed by row and column. */
  datatype Pos = Pos(row: int, col: int)

  /** A matrix stored as a sequence of rows. */
  type Matrix = seq<seq<int>>

  /** The label of a cell that holds no agent. */
  const Empty: int := 0

  /** The label of a cell that holds a human. */
  const Human: int := 1

  predicate InGrid(n: int, p: Pos) {
    0 <= p.row < n && 0 <= p.col < n
  }

  /** `m` has `n` rows of `n` entries each. */
  predicate Square<T>(m: seq<seq<T>>, n: int) {
    |m| == n && forall r :: 0 <= r < |m| ==> |m[r]| == n
  }

  predicate ValidIndex(m: Matrix, p: Pos) {
    0 <= p.row < |m| && 0 <= p.col < |m[p.row]|
  }

  /** Row-major order on cells, the order in which initialisation visits them. */
  predicate RowMajorLess(p: Pos, q: Pos) {
    p.row < q.row || (p.row == q.row && p.col < q.col)
  }

  function Get(m: Matrix, p: Pos): int
    requires ValidIndex(m, p)
  {
    m[p.row][p.col]
  }

  /** Writes `v` into one cell; the shape and every other cell stay as they were. */
  function Set(m: Matrix, p: Pos, v: int): (r: Matrix)
    requires ValidIndex(m, p)
    ensures |r| == |m| && forall i :: 0 <= i < |m| ==> |r[i]| == |m[i]|
    ensures Get(r, p) == v
    ensures forall q :: ValidIndex(m, q) && q != p ==> Get(r, q) == Get(m, q)
  {
    m[p.row := m[p.row][p.col := v]]
  }

  /** The n × n matrix of empty cells. */
  function Zeros(n: nat): (r: Matrix)
    ensures Square(r, n)
    ensures forall p :: InGrid(n, p) ==> Get(r, p) == Empty
  {
    seq(n, _ => seq(n, _ => Empty))
  }

  /** All entries in row-major order. */
  function Cells(m: Matrix): seq<int> {
    if |m| == 0 then [] else m[0] + Cells(m[1..])
  }

  /** The multiset of values the matrix holds. */
  function Contents(m: Matrix): multiset<int> {
    multiset(Cells(m))
  }

  /** 1 for a value that marks an occupied cell, 0 for Empty. */
  function Weight(v: int): int {
    if v == Empty then 0 else 1
  }

  /** Number of cells whose value is not Empty. */
  function Occupied(m: Matrix): int {
    |Cells(m)| - Contents(m)[Empty]
  }

  /** Every entry of the matrix is among its cells. */
  lemma {:induction false} CellsHold(m: Matrix, p: Pos)
    requires ValidIndex(m, p)
    ensures Get(m, p) in Contents(m)
    decreases |m|
  {
    if p.row == 0 {
      assert Cells(m) == m[0] + Cells(m[1..]);
      assert m[0][p.col] in multiset(m[0]);
    } else {
      CellsHold(m[1..], Pos(p.row - 1, p.col));
    }
  }

  /** A write into the first row changes that row's multiset by one
      value and leaves the other rows' cells alone. */
  lemma SetContentsHead(m: Matrix, p: Pos, v: int)
    requires ValidIndex(m, p) && p.row == 0
    ensures |Cells(Set(m, p, v))| == |Cells(m)|
    ensures Contents(Set(m, p, v)) == Contents(m) - multiset{Get(m, p)} + multiset{v}
  {
    var r := Set(m, p, v);
    var row := m[0][p.col := v];
    assert r[1..] == m[1..];
    assert Cells(r) == row + Cells(m[1..]);
    assert Cells(m) == m[0] + Cells(m[1..]);
    assert m[0] == m[0][..p.col] + [m[0][p.col]] + m[0][p.col + 1..];
    assert row == m[0][..p.col] + [v] + m[0][p.col + 1..];
  }

  /** A single-cell write removes the old value from the contents and adds the new one. */
  lemma {:induction false} SetContents(m: Matrix, p: Pos, v: int)
    requires ValidIndex(m, p)
    ensures |Cells(Set(m, p, v))| == |Cells(m)|
    ensures Contents(Set(m, p, v)) == Contents(m) - multiset{Get(m, p)} + multiset{v}
    decreases |m|
  {
    var r := Set(m, p, v);
    if p.row == 0 {
      SetContentsHead(m, p, v);
    } else {
      var p' := Pos(p.row - 1, p.col);
      assert r[1..] == Set(m[1..], p', v);
      SetContents(m[1..], p', v);
      assert Cells(r) == m[0] + Cells(r[1..]);
      CellsHold(m[1..], p');
    }
  }

  /** A single-cell write changes the occupied count by the weight it adds minus the weight it removes. */
  lemma SetOccupied(m: Matrix, p: Pos, v: int)
    requires ValidIndex(m, p)
    ensures Occupied(Set(m, p, v)) == Occupied(m) - Weight(Get(m, p)) + Weight(v)
  {
    SetContents(m, p, v);
    CellsHold(m, p);
  }

  /** Moving the value of `p` onto `q` and then writing `z` into `p`, where
      `q` held `z`, leaves the contents unchanged. */
  lemma MoveValueContents(m: Matrix, p: Pos, q: Pos, z: int)
    requires ValidIndex(m, p) && ValidIndex(m, q) && p != q
    requires Get(m, q) == z
    ensures Contents(Set(Set(m, q, Get(m, p)), p, z)) == Contents(m)
  {
    var x := Get(m, p);
    var m1 := Set(m, q, x);
    SetContents(m, q, x);
    SetContents(m1, p, z);
    CellsHold(m, q);
    assert Get(m1, p) == x;
    var a := Contents(m);
    assert Contents(m1) == a - multiset{z} + multiset{x};
    assert Contents(m1) - multiset{x} == a - multiset{z};
  }

  lemma {:induction false} EmptyRow(s: seq<int>)
    requires forall k :: 0 <= k < |s| ==> s[k] == Empty
    ensures multiset(s)[Empty] == |s|
  {
    if |s| > 0 {
      assert s == [s[0]] + s[1..];
      EmptyRow(s[1..]);
    }
  }

  /** A matrix with every entry Empty has no occupied cell. */
  lemma {:induction false} EmptyMatrix(m: Matrix)
    requires forall r, c :: 0 <= r < |m| && 0 <= c < |m[r]| ==> m[r][c] == Empty
    ensures Occupied(m) == 0
    decreases |m|
  {
    if |m| > 0 {
      EmptyRow(m[0]);
      EmptyMatrix(m[1..]);
    }
  }
}
