/**
 * The direction vectors of script2.js: `srcDIRS` names the side a search step
 * came from as a one-hot vector over (right, left, up, down), and `invertWay`
 * turns it into the set of sides the search may go on to.
 */
module Directions {
  import opened Grids

  /** `srcDIRS.right`, `srcDIRS.left`, `srcDIRS.up`, `srcDIRS.down`. */
  const Right: seq<int> := [1, 0, 0, 0]
  const Left: seq<int> := [0, 1, 0, 0]
  const Up: seq<int> := [0, 0, 1, 0]
  const Down: seq<int> := [0, 0, 0, 1]

  predicate IsWay(way: seq<int>)
  {
    way == Right || way == Left || way == Up || way == Down
  }

  /** The position of the entry that is 1 in a source vector. */
  function WayIndex(way: seq<int>): (k: int)
    requires IsWay(way)
    ensures 0 <= k < 4 && way[k] == 1
    ensures forall i :: 0 <= i < 4 && i != k ==> way[i] == 0
  {
    if way == Right then 0 else if way == Left then 1 else if way == Up then 2 else 3
  }

  /** `invertWay`: every entry equal to 1 becomes 0, every other entry becomes 1. */
  function InvertWay(way: seq<int>): (w: seq<int>)
    ensures |w| == |way|
    ensures forall i :: 0 <= i < |way| ==> (w[i] == 0 <==> way[i] == 1)
    ensures forall i :: 0 <= i < |way| ==> w[i] == 0 || w[i] == 1
  {
    seq(|way|, i requires 0 <= i < |way| => if way[i] == 1 then 0 else 1)
  }

  predicate IsBits(way: seq<int>)
  {
    forall i :: 0 <= i < |way| ==> way[i] == 0 || way[i] == 1
  }

  /** On vectors of zeros and ones, inverting twice gives the vector back. */
  lemma InvertWayInvolutive(way: seq<int>)
    requires IsBits(way)
    ensures InvertWay(InvertWay(way)) == way
  {
    var w := InvertWay(InvertWay(way));
    assert forall i :: 0 <= i < |way| ==> w[i] == way[i];
  }

  /** On other entries it is not: `[2]` becomes `[1]` and then `[0]`. */
  lemma InvertWayNotInvolutive()
    ensures InvertWay(InvertWay([2])) == [0]
  {
    assert InvertWay([2]) == [1];
  }

  /** Inverting a source vector closes exactly the side the step came from. */
  lemma InvertWayOneHot(way: seq<int>)
    requires IsWay(way)
    ensures forall i :: 0 <= i < 4 ==> (InvertWay(way)[i] == 0 <==> i == WayIndex(way))
  {
  }

  /**
   * The neighbour in direction `i` of `newWay` (0 right, 1 left, 2 up, 3 down),
   * as `dfs` steps to it.
   */
  function Step(p: Pos, i: int): (q: Pos)
    requires 0 <= i < 4
    ensures Adjacent4(p, q)
  {
    if i == 0 then Pos(p.r, p.c + 1)
    else if i == 1 then Pos(p.r, p.c - 1)
    else if i == 2 then Pos(p.r - 1, p.c)
    else Pos(p.r + 1, p.c)
  }

  /** The source vector `dfs` passes along with a step in direction `i`. */
  function Back(i: int): (way: seq<int>)
    requires 0 <= i < 4
    ensures IsWay(way)
  {
    if i == 0 then Left else if i == 1 then Right else if i == 2 then Down else Up
  }

  /** The cell a step with source vector `way` came from. */
  function Source(p: Pos, way: seq<int>): (q: Pos)
    requires IsWay(way)
    ensures Adjacent4(p, q)
  {
    Step(p, WayIndex(way))
  }

  /** The source vector sent with each step names the cell the step was taken from. */
  lemma BackPointsHome(p: Pos, i: int)
    requires 0 <= i < 4
    ensures Source(Step(p, i), Back(i)) == p
  {
  }

  /** The four steps reach every orthogonal neighbour. */
  lemma StepsCoverNeighbours(p: Pos, q: Pos)
    requires Adjacent4(p, q)
    ensures exists i :: 0 <= i < 4 && Step(p, i) == q
  {
    if q == Pos(p.r, p.c + 1) {
      assert Step(p, 0) == q;
    } else if q == Pos(p.r, p.c - 1) {
      assert Step(p, 1) == q;
    } else if q == Pos(p.r - 1, p.c) {
      assert Step(p, 2) == q;
    } else {
      assert Step(p, 3) == q;
    }
  }
}
