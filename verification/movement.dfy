/** `HoffmanGame._move_agent` (game.py): one agent tries its four wrap-around
    neighbours in a shuffled order and steps onto the first empty one,
    carrying its label and stasis value; with no empty neighbour it stays.
    The outcome of `random.shuffle(moves)` is the parameter `order`, a
    permutation of the four base directions. */
module Movement {
  import opened Outcomes
  import opened Grid
  import opened Torus
  import opened Permutations
  import opened Game

  /** What a call `_move_agent(idx)` needs: a well-formed state, an existing
      agent index, and a shuffle of the four candidates. */
  predicate MoveArgs(w: World, idx: int, order: seq<int>) {
    WellFormed(w) && 0 <= idx < |w.agents| && IsPermutation(order, 4)
  }

  /** The candidate list `moves` after the shuffle. */
  function Candidates(w: World, idx: int, order: seq<int>): (cs: seq<Pos>)
    requires MoveArgs(w, idx, order)
    ensures |cs| == 4
    ensures forall k :: 0 <= k < 4 ==> InGrid(w.dim, cs[k]) && Adjacent(w.dim, w.agents[idx], cs[k])
    ensures forall q :: q in cs <==> q in Neighbors(w.dim, w.agents[idx])
  {
    var nb := Neighbors(w.dim, w.agents[idx]);
    PermuteMultiset(nb, order);
    assert forall q :: q in nb <==> q in multiset(nb);
    Permute(nb, order)
  }

  /** `random.shuffle(moves)` only rearranges the four candidates: every
      cell occurs in the shuffled list exactly as often as among the
      neighbours. On a torus of side 2, up and down are the same cell, and
      so are left and right; each still occurs twice. */
  lemma CandidatesRearrange(w: World, idx: int, order: seq<int>)
    requires MoveArgs(w, idx, order)
    ensures multiset(Candidates(w, idx, order)) == multiset(Neighbors(w.dim, w.agents[idx]))
  {
    PermuteMultiset(Neighbors(w.dim, w.agents[idx]), order);
  }

  /** On a torus of side 2 the shuffled list holds the vertical neighbour
      twice and the horizontal neighbour twice, whatever the shuffle. */
  lemma SideTwoTwice(w: World, idx: int, order: seq<int>)
    requires MoveArgs(w, idx, order) && w.dim == 2
    ensures var p := w.agents[idx];
      var cs := Candidates(w, idx, order);
      && multiset(cs)[Pos(1 - p.row, p.col)] == 2
      && multiset(cs)[Pos(p.row, 1 - p.col)] == 2
  {
    var p := w.agents[idx];
    var a, b := Pos(1 - p.row, p.col), Pos(p.row, 1 - p.col);
    CandidatesRearrange(w, idx, order);
    SideTwoNeighbors(p);
    assert multiset([a, a, b, b]) == multiset{a, a, b, b};
  }

  /** The scan `for new_i, new_j in moves: if mat[new_i][new_j] == 0 ... break`:
      the position of the first empty candidate, if any. */
  function FirstVacant(m: Matrix, cs: seq<Pos>): (r: Option<nat>)
    requires forall k :: 0 <= k < |cs| ==> ValidIndex(m, cs[k])
    ensures r.Some? ==> r.value < |cs| && Get(m, cs[r.value]) == Empty
    ensures r.Some? ==> forall l :: 0 <= l < r.value ==> Get(m, cs[l]) != Empty
    ensures r.None? <==> forall k :: 0 <= k < |cs| ==> Get(m, cs[k]) != Empty
    decreases |cs|
  {
    if |cs| == 0 then None
    else if Get(m, cs[0]) == Empty then Some(0)
    else match FirstVacant(m, cs[1..])
      case None => None
      case Some(k) => Some(k + 1)
  }

  /** The body of the `if` in the scan: copy label then clear the source,
      copy stasis then clear the source, and record the new position. The
      writes happen in that order, so a destination equal to the source
      ends up cleared. */
  function Relocate(w: World, idx: int, q: Pos): (r: World)
    requires WellFormed(w) && 0 <= idx < |w.agents| && InGrid(Size(w.dim), q)
    ensures WellFormed(r) && r.dim == w.dim && |r.agents| == |w.agents|
    ensures r.cMan == w.cMan && r.cMachine == w.cMachine && r.cAi == w.cAi
    ensures r.agents[idx] == q
    ensures forall k :: 0 <= k < |w.agents| && k != idx ==> r.agents[k] == w.agents[k]
    ensures Get(r.mat, w.agents[idx]) == Empty && Get(r.stasis, w.agents[idx]) == 0
    ensures q != w.agents[idx] ==>
      Get(r.mat, q) == Get(w.mat, w.agents[idx]) && Get(r.stasis, q) == Get(w.stasis, w.agents[idx])
    ensures forall c :: InGrid(Size(w.dim), c) && c != w.agents[idx] && c != q ==>
      Get(r.mat, c) == Get(w.mat, c) && Get(r.stasis, c) == Get(w.stasis, c)
  {
    var p := w.agents[idx];
    var mat := Set(Set(w.mat, q, Get(w.mat, p)), p, Empty);
    var stasis := Set(Set(w.stasis, q, Get(w.stasis, p)), p, 0);
    w.(mat := mat, stasis := stasis, agents := w.agents[idx := q])
  }

  /** `_move_agent(idx)`. It never adds or removes agents and never touches
      the counters. */
  function Move(w: World, idx: int, order: seq<int>): (r: World)
    requires MoveArgs(w, idx, order)
    ensures WellFormed(r) && r.dim == w.dim && |r.agents| == |w.agents|
    ensures r.cMan == w.cMan && r.cMachine == w.cMachine && r.cAi == w.cAi
  {
    var cs := Candidates(w, idx, order);
    match FirstVacant(w.mat, cs)
    case None => w
    case Some(k) => Relocate(w, idx, cs[k])
  }

  /** When all four neighbours are occupied the call changes nothing at all. */
  lemma MoveSaturated(w: World, idx: int, order: seq<int>)
    requires MoveArgs(w, idx, order)
    requires forall k :: 0 <= k < 4 ==> Get(w.mat, Neighbors(w.dim, w.agents[idx])[k]) != Empty
    ensures Move(w, idx, order) == w
  {
  }

  /** When some neighbour is empty the agent moves to the first empty cell
      of the shuffled candidate list. That cell was empty; it now holds the
      agent's label (and, when it differs from the source, its stasis); the
      source is empty with stasis 0; the agent's stored position is the new
      cell; and no other cell and no other agent entry changes. */
  lemma MoveToFirstVacant(w: World, idx: int, order: seq<int>)
    requires MoveArgs(w, idx, order)
    requires exists k :: 0 <= k < 4 && Get(w.mat, Neighbors(w.dim, w.agents[idx])[k]) == Empty
    ensures var r := Move(w, idx, order);
      var p := w.agents[idx];
      var q := r.agents[idx];
      var cs := Candidates(w, idx, order);
      && (exists k :: 0 <= k < 4 && cs[k] == q && forall l :: 0 <= l < k ==> Get(w.mat, cs[l]) != Empty)
      && q in Neighbors(w.dim, p)
      && Get(w.mat, q) == Empty
      && Get(r.mat, q) == Get(w.mat, p)
      && (q != p ==> Get(r.stasis, q) == Get(w.stasis, p))
      && Get(r.mat, p) == Empty && Get(r.stasis, p) == 0
      && (forall c :: InGrid(w.dim, c) && c != p && c != q ==>
            Get(r.mat, c) == Get(w.mat, c) && Get(r.stasis, c) == Get(w.stasis, c))
      && (forall k :: 0 <= k < |w.agents| && k != idx ==> r.agents[k] == w.agents[k])
  {
    var p := w.agents[idx];
    var nb := Neighbors(w.dim, p);
    var cs := Candidates(w, idx, order);
    var k0 :| 0 <= k0 < 4 && Get(w.mat, nb[k0]) == Empty;
    assert nb[k0] in cs;
    var v := FirstVacant(w.mat, cs);
    assert v.Some?;
    var k := v.value;
    assert cs[k] in nb;
  }

  /** On a torus of side at least 2, the agent leaves its cell exactly when
      one of its four neighbours is empty. */
  lemma MovesIffVacantNeighbor(w: World, idx: int, order: seq<int>)
    requires MoveArgs(w, idx, order) && w.dim >= 2
    ensures Move(w, idx, order).agents[idx] != w.agents[idx]
        <==> exists k :: 0 <= k < 4 && Get(w.mat, Neighbors(w.dim, w.agents[idx])[k]) == Empty
  {
    var nb := Neighbors(w.dim, w.agents[idx]);
    NeighborsLeaveCell(w.dim, w.agents[idx]);
    if exists k :: 0 <= k < 4 && Get(w.mat, nb[k]) == Empty {
      MoveToFirstVacant(w, idx, order);
    } else {
      MoveSaturated(w, idx, order);
    }
  }

  /** On a torus of side 1 an agent standing on an occupied cell never moves. */
  lemma SingleCellStays(w: World, idx: int, order: seq<int>)
    requires MoveArgs(w, idx, order) && w.dim == 1
    requires Get(w.mat, w.agents[idx]) != Empty
    ensures Move(w, idx, order) == w
  {
  }

  /** Relocating an agent onto an empty cell keeps the multisets of labels
      and of stasis values. */
  lemma RelocateContents(w: World, idx: int, q: Pos)
    requires WellFormed(w) && 0 <= idx < |w.agents| && InGrid(Size(w.dim), q)
    requires Get(w.mat, q) == Empty && Get(w.stasis, q) == 0 && q != w.agents[idx]
    ensures Contents(Relocate(w, idx, q).mat) == Contents(w.mat)
    ensures Contents(Relocate(w, idx, q).stasis) == Contents(w.stasis)
  {
    var p := w.agents[idx];
    MoveValueContents(w.mat, p, q, Empty);
    MoveValueContents(w.stasis, p, q, 0);
  }

  /** Relocating an agent of a consistent world onto an empty cell keeps it consistent. */
  lemma RelocateConsistent(w: World, idx: int, q: Pos)
    requires Consistent(w) && 0 <= idx < |w.agents| && InGrid(Size(w.dim), q)
    requires Get(w.mat, q) == Empty
    ensures Consistent(Relocate(w, idx, q))
  {
    var p := w.agents[idx];
    var r := Relocate(w, idx, q);
    RelocateContents(w, idx, q);
    forall k | 0 <= k < |r.agents| && k != idx
      ensures r.agents[k] != q && r.agents[k] != p
    {
      assert Get(w.mat, w.agents[k]) != Empty;
      assert k < idx ==> w.agents[k] != w.agents[idx];
      assert k > idx ==> w.agents[idx] != w.agents[k];
    }
  }

  /** A move keeps the grid and agent list consistent, and keeps the
      multisets of labels and of stasis values (hence the occupied count). */
  lemma MovePreservesConsistency(w: World, idx: int, order: seq<int>)
    requires MoveArgs(w, idx, order) && Consistent(w)
    ensures var r := Move(w, idx, order);
      && Consistent(r)
      && Contents(r.mat) == Contents(w.mat)
      && Contents(r.stasis) == Contents(w.stasis)
      && Occupied(r.mat) == Occupied(w.mat)
  {
    var cs := Candidates(w, idx, order);
    match FirstVacant(w.mat, cs)
    case None =>
    case Some(k) =>
      RelocateContents(w, idx, cs[k]);
      RelocateConsistent(w, idx, cs[k]);
  }
}
