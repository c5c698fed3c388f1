/**
 * The free functions of script.js over the global `grid`: `swap`, the chain of
 * detect / drop rounds (`processChain`) and the drag rule of the `mousemove`
 * handler, which lets a dragged icon move onto any of the eight surrounding cells.
 */
module Engine {
  import opened Symbols
  import opened Grids
  import opened Gravity
  import opened Detect

  /** `swap(r1, c1, r2, c2)`: exchange two cells of the board through a temporary. */
  method Swap(grid: array2<Sym>, r1: int, c1: int, r2: int, c2: int)
    requires 0 <= r1 < grid.Length0 && 0 <= c1 < grid.Length1
    requires 0 <= r2 < grid.Length0 && 0 <= c2 < grid.Length1
    modifies grid
    ensures Snapshot(grid) == SwapAt(old(Snapshot(grid)), Pos(r1, c1), Pos(r2, c2))
  {
    ghost var g := Snapshot(grid);
    var temp := grid[r1, c1];
    grid[r1, c1] := grid[r2, c2];
    grid[r2, c2] := temp;
    SwapAtExchanges(g, Pos(r1, c1), Pos(r2, c2));
    SnapshotIs(grid, SwapAt(g, Pos(r1, c1), Pos(r2, c2)));
  }

  // ---------------------------------------------------------------- the chain of rounds

  /**
   * What `detectMatches` keeps on the board `G`: groups exactly when `G` has a
   * line of three icons, each a whole same-icon region with at least three
   * cells and a line, no two sharing a cell, and together holding every line.
   */
  ghost predicate Detected(G: Grid, groups: seq<seq<Pos>>)
  {
    (groups != [] <==> HasIconLine(G)) &&
    (forall i :: 0 <= i < |groups| ==> Kept(G, groups[i])) &&
    (forall i, j :: 0 <= i < j < |groups| ==> Elems(groups[i]) !! Elems(groups[j])) &&
    (forall r, c :: LinesCleared(G, r, c, Cells(groups)))
  }

  /**
   * One round of `processChain` from the board `b` to the board `a`: the groups
   * `gs` that `detectMatches` keeps are cleared, then the board is dropped and refilled.
   */
  ghost predicate Round(b: Grid, gs: seq<seq<Pos>>, a: Grid)
  {
    gs != [] && Detected(b, gs) && Dropped(a, ClearAt(b, Cells(gs)))
  }

  /** After a round the board has no `null` cell: every gap was refilled. */
  lemma RoundIsFull(b: Grid, gs: seq<seq<Pos>>, a: Grid)
    requires Round(b, gs, a)
    ensures Full(a)
  {
    DroppedIsFull(a, ClearAt(b, Cells(gs)));
  }

  /**
   * `processChain`: detect and clear the kept groups; when something was cleared,
   * drop and refill, then start over. The source re-arms itself through timers and
   * has no bound on the number of rounds, since refills are random; here at most
   * `fuel` rounds run. `boards` are the boards between rounds and `cleared` the
   * groups each round cleared. `settled` says the last detection found nothing, in
   * which case the board holds no straight line of three equal icons.
   */
  method ProcessChain(grid: array2<Sym>, fuel: nat)
    returns (rounds: nat, settled: bool, ghost boards: seq<Grid>, ghost cleared: seq<seq<seq<Pos>>>)
    modifies grid
    ensures rounds <= fuel
    ensures |boards| == rounds + 1 && boards[0] == old(Snapshot(grid)) && boards[rounds] == Snapshot(grid)
    ensures |cleared| == rounds && forall i :: 0 <= i < rounds ==> Round(boards[i], cleared[i], boards[i + 1])
    ensures settled ==> !HasIconLine(Snapshot(grid))
    ensures !settled ==> rounds == fuel
    ensures fuel > 0 && !HasIconLine(old(Snapshot(grid))) ==>
      settled && rounds == 0 && Snapshot(grid) == old(Snapshot(grid))
  {
    rounds := 0;
    settled := false;
    boards := [Snapshot(grid)];
    cleared := [];
    while rounds < fuel
      invariant rounds <= fuel
      invariant |boards| == rounds + 1 && boards[0] == old(Snapshot(grid)) && boards[rounds] == Snapshot(grid)
      invariant |cleared| == rounds && Trace(boards, cleared, Round)
      invariant !HasIconLine(old(Snapshot(grid))) ==> rounds == 0
      decreases fuel - rounds
    {
      var matched, groups := ChainStep(grid);
      if !matched {
        settled := true;
        TraceSteps(boards, cleared, Round);
        return;
      }
      TraceSnoc(boards, cleared, Round, groups, Snapshot(grid));
      boards := boards + [Snapshot(grid)];
      cleared := cleared + [groups];
      rounds := rounds + 1;
    }
    TraceSteps(boards, cleared, Round);
  }

  /**
   * One pass of `processChain`: `detectMatches` clears the kept groups, and when
   * there were any the board is dropped and refilled.
   */
  method ChainStep(grid: array2<Sym>) returns (matched: bool, groups: seq<seq<Pos>>)
    modifies grid
    ensures matched <==> HasIconLine(old(Snapshot(grid)))
    ensures !matched ==> Snapshot(grid) == old(Snapshot(grid))
    ensures matched ==> Round(old(Snapshot(grid)), groups, Snapshot(grid))
  {
    ghost var before := Snapshot(grid);
    matched, groups := DetectMatches(grid);
    if !matched {
      ClearAtNothing(before);
      return;
    }
    assert Detected(before, groups);
    DropGems(grid);
  }

  // ---------------------------------------------------------------- dragging

  function Abs(x: int): (y: nat)
    ensures y == x || y == -x
  {
    if x < 0 then -x else x
  }

  /**
   * The test of the `mousemove` handler: the Chebyshev distance between the two
   * cells is exactly 1, so a drag step goes to one of the eight cells around the
   * start, never to the start itself.
   */
  predicate IsDragStep(p: Pos, q: Pos): (b: bool)
    ensures b <==> p != q && -1 <= p.r - q.r <= 1 && -1 <= p.c - q.c <= 1
  {
    Max(Abs(p.r - q.r), Abs(p.c - q.c)) == 1
  }

  /** Every orthogonal neighbour is a drag step. */
  lemma OrthogonalIsDragStep(p: Pos, q: Pos)
    requires Adjacent4(p, q)
    ensures IsDragStep(p, q)
  {
  }

  /** A diagonal neighbour is a drag step as well, though not an orthogonal neighbour. */
  lemma DiagonalIsDragStep(r: int, c: int)
    ensures IsDragStep(Pos(r, c), Pos(r + 1, c + 1))
    ensures !Adjacent4(Pos(r, c), Pos(r + 1, c + 1))
  {
  }

  /** The drag relation is symmetric. */
  lemma DragStepSymmetric(p: Pos, q: Pos)
    ensures IsDragStep(p, q) <==> IsDragStep(q, p)
  {
  }

  /**
   * The `mousemove` handler once the pointer is over the cell `target` while the
   * cell `selected` is held: a drag step swaps the two icons and the target
   * becomes the held cell; any other cell leaves board and selection alone.
   */
  method DragOver(grid: array2<Sym>, selected: Pos, target: Pos) returns (held: Pos)
    requires 0 <= selected.r < grid.Length0 && 0 <= selected.c < grid.Length1
    requires 0 <= target.r < grid.Length0 && 0 <= target.c < grid.Length1
    modifies grid
    ensures IsDragStep(selected, target) ==>
      held == target && Snapshot(grid) == SwapAt(old(Snapshot(grid)), selected, target)
    ensures !IsDragStep(selected, target) ==>
      held == selected && Snapshot(grid) == old(Snapshot(grid))
  {
    held := selected;
    if target != selected && IsDragStep(selected, target) {
      Swap(grid, selected.r, selected.c, target.r, target.c);
      held := target;
    }
  }
}
