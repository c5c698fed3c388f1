/**
 * `detectMatches` of script.js: a plain flood fill (`dfs`) collects, for every
 * unvisited non-empty cell in row-major order, the 4-connected region of cells
 * holding the same icon; a region is kept when it has at least three members
 * and `isValidGroup` accepts it, and every cell of every kept region is cleared.
 */
module Detect {
  import opened Symbols
  import opened Grids
  import opened Consecutive
  import opened Groups

  /** `isInBounds(r, c)` inside `detectMatches`: (r, c) is a position of the board. */
  predicate InBounds(a: array2<Sym>, r: int, c: int): (b: bool)
    ensures b <==> Pos(r, c) in AllCells(a.Length0, a.Length1)
  {
    0 <= r < a.Length0 && 0 <= c < a.Length1
  }

  /** The `visited` matrix has the grid's shape. */
  predicate SameShape(grid: array2<Sym>, visited: array2<bool>)
  {
    visited.Length0 == grid.Length0 && visited.Length1 == grid.Length1
  }

  /** Every position of a board with the given shape. */
  ghost function AllCells(rows: int, cols: int): set<Pos>
  {
    set i, j | 0 <= i < rows && 0 <= j < cols :: Pos(i, j)
  }

  /** The positions whose `visited` flag is set. */
  ghost function VisitedSet(v: array2<bool>): set<Pos>
    reads v
  {
    set i, j | 0 <= i < v.Length0 && 0 <= j < v.Length1 && v[i, j] :: Pos(i, j)
  }

  /** The positions holding `icon`. */
  ghost function Holding(grid: array2<Sym>, icon: Sym): set<Pos>
    reads grid
  {
    set i, j | 0 <= i < grid.Length0 && 0 <= j < grid.Length1 && grid[i, j] == icon :: Pos(i, j)
  }

  /** Every member of `A` has all its orthogonal neighbours that lie in `H` inside `V`. */
  ghost predicate Closed(A: set<Pos>, H: set<Pos>, V: set<Pos>)
  {
    forall p, q :: p in A && q in H && Adjacent4(p, q) ==> q in V
  }

  /** The positions of `grown` that are not in `group`: what one flood added. */
  ghost function AddedTo(grown: seq<Pos>, group: seq<Pos>): set<Pos>
  {
    set p | p in grown && p !in group
  }

  ghost function Elems(s: seq<Pos>): set<Pos>
  {
    set p | p in s
  }

  // ---------------------------------------------------------------- bookkeeping of one flood

  /** Growing a list in two steps adds what the two steps add. */
  lemma AddedSplit(group: seq<Pos>, before: seq<Pos>, after: seq<Pos>)
    requires |group| <= |before| <= |after|
    requires before[..|group|] == group && after[..|before|] == before
    ensures AddedTo(after, group) == AddedTo(before, group) + AddedTo(after, before)
    ensures Elems(after) == Elems(before) + AddedTo(after, before)
  {
    forall p | p in before
      ensures p in after
    {
      var k :| 0 <= k < |before| && before[k] == p;
      assert after[k] == p;
    }
    forall p | p in group
      ensures p in before
    {
      var k :| 0 <= k < |group| && group[k] == p;
      assert before[k] == p;
    }
  }

  /**
   * A region reachable from `s` joined with a region reachable from a
   * neighbour `nb` of `s` is reachable from `s`.
   */
  lemma RegionExtends(A: set<Pos>, B: set<Pos>, s: Pos, nb: Pos)
    requires s in A && Adjacent4(s, nb)
    requires forall p :: p in A ==> Connected(A, s, p)
    requires forall p :: p in B ==> Connected(B, nb, p)
    ensures forall p :: p in A + B ==> Connected(A + B, s, p)
  {
    forall p | p in A + B
      ensures Connected(A + B, s, p)
    {
      if p in A {
        ConnectedWithin(A, A + B, s, p);
      } else {
        ConnectedStep(B, s, nb, p);
        ConnectedWithin(B + {s}, A + B, s, p);
      }
    }
  }

  lemma ClosedGrows(A: set<Pos>, B: set<Pos>, H: set<Pos>, V: set<Pos>, W: set<Pos>)
    requires Closed(A, H, V) && Closed(B, H, W) && V <= W
    ensures Closed(A + B, H, W)
  {
  }

  /**
   * Where a flood from `s` stands between two recursive calls: `grown` extends
   * `group` by `s` and by what the calls so far pushed; exactly those cells
   * were newly visited, all hold the icon, all are reachable from `s`, and all
   * but `s` have their same-icon neighbours visited.
   */
  ghost predicate FloodProgress(group: seq<Pos>, grown: seq<Pos>, s: Pos, H: set<Pos>, V0: set<Pos>, V: set<Pos>)
  {
    |group| < |grown| && grown[..|group|] == group && grown[|group|] == s &&
    s in AddedTo(grown, group) &&
    V == V0 + AddedTo(grown, group) &&
    Elems(grown) <= V &&
    AddedTo(grown, group) <= H - V0 &&
    (forall p :: p in AddedTo(grown, group) ==> Connected(AddedTo(grown, group), s, p)) &&
    Closed(AddedTo(grown, group) - {s}, H, V) &&
    (Distinct(group) ==> Distinct(grown))
  }

  /** Marking the start cell and pushing it begins the flood's progress. */
  lemma FloodStart(group: seq<Pos>, s: Pos, H: set<Pos>, V0: set<Pos>, V: set<Pos>)
    requires Elems(group) <= V0 && s in H - V0 && V == V0 + {s}
    ensures FloodProgress(group, group + [s], s, H, V0, V)
  {
    var grown := group + [s];
    assert grown[..|group|] == group;
    assert s !in group;
    assert AddedTo(grown, group) == {s};
    assert Elems(grown) == Elems(group) + {s};
    ConnectedSelf({s}, s);
  }

  /** Nothing was pushed. */
  lemma AddedNothing(group: seq<Pos>)
    ensures AddedTo(group, group) == {}
  {
  }

  /** One recursive call, from the neighbour `nb` of `s`, keeps the flood's progress. */
  lemma FloodStepDone(group: seq<Pos>, before: seq<Pos>, after: seq<Pos>, s: Pos, nb: Pos,
                      H: set<Pos>, V0: set<Pos>, Vb: set<Pos>, Va: set<Pos>)
    requires FloodProgress(group, before, s, H, V0, Vb) && Adjacent4(s, nb)
    requires |before| <= |after| && after[..|before|] == before
    requires Va == Vb + AddedTo(after, before)
    requires AddedTo(after, before) <= H - Vb
    requires Closed(AddedTo(after, before), H, Va)
    requires Distinct(before) ==> Distinct(after)
    requires if nb in H - Vb then |after| > |before| && after[|before|] == nb else after == before
    requires forall p :: p in AddedTo(after, before) ==> Connected(AddedTo(after, before), nb, p)
    ensures FloodProgress(group, after, s, H, V0, Va)
    ensures nb in H ==> nb in Va
  {
    AddedSplit(group, before, after);
    var A, B := AddedTo(before, group), AddedTo(after, before);
    RegionExtends(A, B, s, nb);
    assert (A + B) - {s} == (A - {s}) + B;
    ClosedGrows(A - {s}, B, H, Vb, Va);
    assert after[..|group|] == before[..|group|];
    if nb in H - Vb {
      assert nb in B by {
        assert after[|before|] == nb;
        assert nb !in before;
      }
    }
  }

  /** What a flood that starts on an unvisited cell `s` holding the icon achieves. */
  ghost predicate FloodResult(group: seq<Pos>, grown: seq<Pos>, s: Pos, H: set<Pos>, V0: set<Pos>, V: set<Pos>)
  {
    |group| < |grown| && grown[..|group|] == group && grown[|group|] == s &&
    V == V0 + AddedTo(grown, group) &&
    AddedTo(grown, group) <= H - V0 &&
    Closed(AddedTo(grown, group), H, V) &&
    (Distinct(group) ==> Distinct(grown)) &&
    (forall p :: p in AddedTo(grown, group) ==> Connected(AddedTo(grown, group), s, p)) &&
    (forall q :: q in AddedTo(grown, group) <==> Connected(H - V0, s, q))
  }

  /** After the four recursive calls the flood from `s` has its full contract. */
  lemma FloodDone(group: seq<Pos>, grown: seq<Pos>, s: Pos, H: set<Pos>, V0: set<Pos>, V: set<Pos>)
    requires FloodProgress(group, grown, s, H, V0, V)
    requires Pos(s.r + 1, s.c) in H ==> Pos(s.r + 1, s.c) in V
    requires Pos(s.r - 1, s.c) in H ==> Pos(s.r - 1, s.c) in V
    requires Pos(s.r, s.c + 1) in H ==> Pos(s.r, s.c + 1) in V
    requires Pos(s.r, s.c - 1) in H ==> Pos(s.r, s.c - 1) in V
    ensures FloodResult(group, grown, s, H, V0, V)
  {
    var A := AddedTo(grown, group);
    assert Closed({s}, H, V);
    assert A == (A - {s}) + {s};
    ReachableRegion(A, H - V0, s);
  }

  /**
   * The inner `dfs(r, c, icon, group)`. Out of bounds, visited or another icon:
   * nothing happens. Otherwise the cell is marked visited, pushed, and the four
   * neighbours are flooded in the order down, up, right, left. What it pushes is
   * exactly the region of cells holding `icon` that is reachable from (r, c)
   * through cells that were unvisited when it started; each pushed cell was
   * unvisited, so nothing is pushed twice, and each is marked visited before it
   * is pushed.
   */
  method Flood(grid: array2<Sym>, visited: array2<bool>, r: int, c: int, icon: Sym, group: seq<Pos>)
    returns (grown: seq<Pos>)
    requires SameShape(grid, visited)
    requires Elems(group) <= VisitedSet(visited)
    modifies visited
    ensures |group| <= |grown| && grown[..|group|] == group
    ensures VisitedSet(visited) == old(VisitedSet(visited)) + AddedTo(grown, group)
    ensures AddedTo(grown, group) <= Holding(grid, icon) - old(VisitedSet(visited))
    ensures Closed(AddedTo(grown, group), Holding(grid, icon), VisitedSet(visited))
    ensures Distinct(group) ==> Distinct(grown)
    ensures if Pos(r, c) in Holding(grid, icon) - old(VisitedSet(visited))
      then |grown| > |group| && grown[|group|] == Pos(r, c)
      else grown == group
    ensures forall p :: p in AddedTo(grown, group) ==> Connected(AddedTo(grown, group), Pos(r, c), p)
    ensures Pos(r, c) in Holding(grid, icon) - old(VisitedSet(visited)) ==>
      forall q :: q in AddedTo(grown, group) <==> Connected(Holding(grid, icon) - old(VisitedSet(visited)), Pos(r, c), q)
    decreases AllCells(visited.Length0, visited.Length1) - VisitedSet(visited), 2
  {
    if !InBounds(grid, r, c) || visited[r, c] || grid[r, c] != icon {
      AddedNothing(group);
      return group;
    }
    assert Pos(r, c) in Holding(grid, icon) - VisitedSet(visited);
    grown := FloodFrom(grid, visited, r, c, icon, group);
  }

  /** The flood from an unvisited cell (r, c) that holds `icon`. */
  method FloodFrom(grid: array2<Sym>, visited: array2<bool>, r: int, c: int, icon: Sym, group: seq<Pos>)
    returns (grown: seq<Pos>)
    requires SameShape(grid, visited)
    requires Elems(group) <= VisitedSet(visited)
    requires InBounds(grid, r, c) && !visited[r, c] && grid[r, c] == icon
    modifies visited
    ensures FloodResult(group, grown, Pos(r, c), Holding(grid, icon), old(VisitedSet(visited)), VisitedSet(visited))
    decreases AllCells(visited.Length0, visited.Length1) - VisitedSet(visited), 1
  {
    ghost var H := Holding(grid, icon);
    ghost var V0 := VisitedSet(visited);
    ghost var s := Pos(r, c);
    grown := FloodMark(grid, visited, r, c, icon, group);
    grown := FloodVertical(grid, visited, r, c, icon, grown, group, H, V0);
    grown := FloodHorizontal(grid, visited, r, c, icon, grown, group, H, V0);
    FloodDone(group, grown, s, H, V0, VisitedSet(visited));
  }

  /** The first two recursive calls of a flood from (r, c): down, then up. */
  method FloodVertical(grid: array2<Sym>, visited: array2<bool>, r: int, c: int, icon: Sym,
                       grown: seq<Pos>, ghost group: seq<Pos>, ghost H: set<Pos>, ghost V0: set<Pos>)
    returns (grown': seq<Pos>)
    requires SameShape(grid, visited) && H == Holding(grid, icon)
    requires FloodProgress(group, grown, Pos(r, c), H, V0, VisitedSet(visited))
    modifies visited
    ensures FloodProgress(group, grown', Pos(r, c), H, V0, VisitedSet(visited))
    ensures Pos(r + 1, c) in H ==> Pos(r + 1, c) in VisitedSet(visited)
    ensures Pos(r - 1, c) in H ==> Pos(r - 1, c) in VisitedSet(visited)
    ensures old(VisitedSet(visited)) <= VisitedSet(visited)
    decreases AllCells(visited.Length0, visited.Length1) - VisitedSet(visited), 4
  {
    grown' := FloodNeighbour(grid, visited, r, c, r + 1, c, icon, grown, group, H, V0);
    grown' := FloodNeighbour(grid, visited, r, c, r - 1, c, icon, grown', group, H, V0);
  }

  /** The last two recursive calls of a flood from (r, c): right, then left. */
  method FloodHorizontal(grid: array2<Sym>, visited: array2<bool>, r: int, c: int, icon: Sym,
                         grown: seq<Pos>, ghost group: seq<Pos>, ghost H: set<Pos>, ghost V0: set<Pos>)
    returns (grown': seq<Pos>)
    requires SameShape(grid, visited) && H == Holding(grid, icon)
    requires FloodProgress(group, grown, Pos(r, c), H, V0, VisitedSet(visited))
    modifies visited
    ensures FloodProgress(group, grown', Pos(r, c), H, V0, VisitedSet(visited))
    ensures Pos(r, c + 1) in H ==> Pos(r, c + 1) in VisitedSet(visited)
    ensures Pos(r, c - 1) in H ==> Pos(r, c - 1) in VisitedSet(visited)
    ensures old(VisitedSet(visited)) <= VisitedSet(visited)
    decreases AllCells(visited.Length0, visited.Length1) - VisitedSet(visited), 4
  {
    grown' := FloodNeighbour(grid, visited, r, c, r, c + 1, icon, grown, group, H, V0);
    grown' := FloodNeighbour(grid, visited, r, c, r, c - 1, icon, grown', group, H, V0);
  }

  /** The start of a flood at (r, c): mark the cell visited and push it. */
  method FloodMark(grid: array2<Sym>, visited: array2<bool>, r: int, c: int, icon: Sym, group: seq<Pos>)
    returns (grown: seq<Pos>)
    requires SameShape(grid, visited)
    requires Elems(group) <= VisitedSet(visited)
    requires InBounds(grid, r, c) && !visited[r, c] && grid[r, c] == icon
    modifies visited
    ensures FloodProgress(group, grown, Pos(r, c), Holding(grid, icon), old(VisitedSet(visited)), VisitedSet(visited))
  {
    ghost var V0 := VisitedSet(visited);
    visited[r, c] := true;
    grown := group + [Pos(r, c)];
    assert VisitedSet(visited) == V0 + {Pos(r, c)};
    FloodStart(group, Pos(r, c), Holding(grid, icon), V0, VisitedSet(visited));
  }

  /** One of the four recursive calls of a flood from (r, c), to its neighbour (nr, nc). */
  method FloodNeighbour(grid: array2<Sym>, visited: array2<bool>, r: int, c: int, nr: int, nc: int, icon: Sym,
                        grown: seq<Pos>, ghost group: seq<Pos>, ghost H: set<Pos>, ghost V0: set<Pos>)
    returns (grown': seq<Pos>)
    requires SameShape(grid, visited) && Adjacent4(Pos(r, c), Pos(nr, nc)) && H == Holding(grid, icon)
    requires FloodProgress(group, grown, Pos(r, c), H, V0, VisitedSet(visited))
    modifies visited
    ensures FloodProgress(group, grown', Pos(r, c), H, V0, VisitedSet(visited))
    ensures Pos(nr, nc) in H ==> Pos(nr, nc) in VisitedSet(visited)
    ensures old(VisitedSet(visited)) <= VisitedSet(visited) && H == Holding(grid, icon)
    decreases AllCells(visited.Length0, visited.Length1) - VisitedSet(visited), 3
  {
    ghost var Vb := VisitedSet(visited);
    grown' := Flood(grid, visited, nr, nc, icon, grown);
    FloodStepDone(group, grown, grown', Pos(r, c), Pos(nr, nc), H, V0, Vb, VisitedSet(visited));
  }

  // ---------------------------------------------------------------- the scan over the board

  /** Row `r`'s and column `c`'s cell starts a straight line of three equal icons. */
  ghost predicate IconLineAt(G: Grid, r: int, c: int)
  {
    LineAt(G, r, c) && G[r][c] != Null
  }

  /** Every cell of every straight line of three icons that starts at (r, c) is in `S`. */
  ghost predicate LinesCleared(G: Grid, r: int, c: int, S: set<Pos>)
  {
    (HLineAt(G, r, c) && G[r][c] != Null ==> Pos(r, c) in S && Pos(r, c + 1) in S && Pos(r, c + 2) in S) &&
    (VLineAt(G, r, c) && G[r][c] != Null ==> Pos(r, c) in S && Pos(r + 1, c) in S && Pos(r + 2, c) in S)
  }

  /**
   * `g` lists, without repeats, exactly the cells reachable from its first cell,
   * which holds an icon, through orthogonal steps over cells holding that icon.
   */
  ghost predicate Component(G: Grid, g: seq<Pos>)
  {
    |g| > 0 && InGrid(G, g[0].r, g[0].c) && G[g[0].r][g[0].c] != Null &&
    Distinct(g) &&
    forall q :: q in g <==> Connected(CellsHolding(G, G[g[0].r][g[0].c]), g[0], q)
  }

  /** A group `detectMatches` keeps: a whole same-icon region of at least three cells with a line of three. */
  ghost predicate Kept(G: Grid, g: seq<Pos>)
  {
    Component(G, g) && |g| >= 3 && HasRun(g)
  }

  /** All the cells of a list of groups. */
  ghost function Cells(gs: seq<seq<Pos>>): set<Pos>
  {
    if gs == [] then {} else Cells(gs[..|gs| - 1]) + Elems(gs[|gs| - 1])
  }

  /** The visited cells take in every neighbour holding the same symbol. */
  ghost predicate VisitedClosed(G: Grid, V: set<Pos>)
  {
    forall x :: Closed(V * CellsHolding(G, x), CellsHolding(G, x), V)
  }

  /** Every non-empty cell before (r, c) in row-major order has been visited. */
  ghost predicate Scanned(G: Grid, V: set<Pos>, r: int, c: int)
  {
    forall i, j :: InGrid(G, i, j) && (i < r || (i == r && j < c)) && G[i][j] != Null ==> Pos(i, j) in V
  }

  /**
   * What holds between two cells of the scan: the visited cells are closed, the
   * groups kept so far are disjoint whole regions with a line, and every line
   * starting on a visited cell lies inside the kept groups.
   */
  ghost predicate ScanState(G: Grid, V: set<Pos>, groups: seq<seq<Pos>>)
  {
    VisitedClosed(G, V) &&
    (forall i :: 0 <= i < |groups| ==> Kept(G, groups[i]) && Elems(groups[i]) <= V) &&
    (forall i, j :: 0 <= i < j < |groups| ==> Elems(groups[i]) !! Elems(groups[j])) &&
    (forall r, c :: Pos(r, c) in V ==> LinesCleared(G, r, c, Cells(groups)))
  }

  lemma HoldingIs(grid: array2<Sym>, G: Grid)
    requires G == Snapshot(grid)
    ensures forall x :: Holding(grid, x) == CellsHolding(G, x)
  {
  }

  lemma AddedToEmpty(grown: seq<Pos>)
    ensures AddedTo(grown, []) == Elems(grown)
  {
  }

  lemma CellsSnoc(gs: seq<seq<Pos>>, g: seq<Pos>)
    ensures Cells(gs + [g]) == Cells(gs) + Elems(g)
  {
    assert (gs + [g])[..|gs|] == gs;
  }

  /** Three different members need three entries. */
  lemma ThreeMembers(s: seq<Pos>, a: Pos, b: Pos, c: Pos)
    requires a in s && b in s && c in s && a != b && b != c && a != c
    ensures |s| >= 3
  {
  }

  /**
   * A region flooded from `s` over cells not yet visited is the whole region of
   * `s`'s icon, because the visited cells are closed; every line starting in
   * it lies in it, and if there is one the group has a run and three cells.
   */
  lemma NewComponent(G: Grid, V0: set<Pos>, grown: seq<Pos>, s: Pos, icon: Sym)
    requires InGrid(G, s.r, s.c) && G[s.r][s.c] == icon && icon != Null && s !in V0
    requires VisitedClosed(G, V0)
    requires |grown| > 0 && grown[0] == s && Distinct(grown)
    requires forall q :: q in Elems(grown) <==> Connected(CellsHolding(G, icon) - V0, s, q)
    ensures Component(G, grown)
    ensures forall r, c :: Pos(r, c) in grown && IconLineAt(G, r, c) ==>
      LinesCleared(G, r, c, Elems(grown)) && HasRun(grown) && |grown| >= 3
  {
    var H := CellsHolding(G, icon);
    assert Closed(V0 * H, H, V0);
    assert H - V0 * H == H - V0;
    forall q
      ensures q in grown <==> Connected(H, s, q)
    {
      assert q in grown <==> q in Elems(grown);
      if Connected(H - V0, s, q) {
        ConnectedWithin(H - V0, H, s, q);
      }
      if Connected(H, s, q) {
        ConnectedAvoidsClosed(H, V0 * H, s, q);
      }
    }
    forall r, c | Pos(r, c) in grown && IconLineAt(G, r, c)
      ensures LinesCleared(G, r, c, Elems(grown)) && HasRun(grown) && |grown| >= 3
    {
      var p := Pos(r, c);
      var path :| IsPathIn(path, H) && path[0] == s && path[|path| - 1] == p;
      assert G[r][c] == icon;
      if HLineAt(G, r, c) {
        ConnectedAppend(H, s, p, Pos(r, c + 1));
        ConnectedAppend(H, s, Pos(r, c + 1), Pos(r, c + 2));
        assert RowRunAt(grown, r, c);
        ThreeMembers(grown, p, Pos(r, c + 1), Pos(r, c + 2));
      }
      if VLineAt(G, r, c) {
        ConnectedAppend(H, s, p, Pos(r + 1, c));
        ConnectedAppend(H, s, Pos(r + 1, c), Pos(r + 2, c));
        assert ColRunAt(grown, r, c);
        ThreeMembers(grown, p, Pos(r + 1, c), Pos(r + 2, c));
      }
    }
  }

  /** Adding a flooded region of one icon, closed in that icon, keeps the visited cells closed. */
  lemma ClosedAfterFlood(G: Grid, V0: set<Pos>, A: set<Pos>, icon: Sym)
    requires VisitedClosed(G, V0)
    requires A <= CellsHolding(G, icon)
    requires Closed(A, CellsHolding(G, icon), V0 + A)
    ensures VisitedClosed(G, V0 + A)
  {
    forall x
      ensures Closed((V0 + A) * CellsHolding(G, x), CellsHolding(G, x), V0 + A)
    {
      assert Closed(V0 * CellsHolding(G, x), CellsHolding(G, x), V0);
      if x != icon {
        assert (V0 + A) * CellsHolding(G, x) == V0 * CellsHolding(G, x);
      }
    }
  }

  /** Lines starting on visited cells stay inside the kept groups after one flood. */
  lemma LinesStep(G: Grid, V0: set<Pos>, S: set<Pos>, grown: seq<Pos>, S': set<Pos>)
    requires forall r, c :: Pos(r, c) in V0 ==> LinesCleared(G, r, c, S)
    requires forall r, c :: Pos(r, c) in grown && IconLineAt(G, r, c) ==> LinesCleared(G, r, c, Elems(grown))
    requires S <= S'
    requires (exists r, c :: Pos(r, c) in grown && IconLineAt(G, r, c)) ==> Elems(grown) <= S'
    ensures forall r, c :: Pos(r, c) in V0 + Elems(grown) ==> LinesCleared(G, r, c, S')
  {
    forall r, c | Pos(r, c) in V0 + Elems(grown)
      ensures LinesCleared(G, r, c, S')
    {
      if Pos(r, c) in V0 {
        assert LinesCleared(G, r, c, S);
      } else {
        assert Pos(r, c) in grown;
      }
    }
  }

  /** The scan state after a flood whose group is kept. */
  lemma ScanKeep(G: Grid, V0: set<Pos>, groups: seq<seq<Pos>>, grown: seq<Pos>)
    requires ScanState(G, V0, groups)
    requires VisitedClosed(G, V0 + Elems(grown))
    requires Kept(G, grown) && Elems(grown) !! V0
    requires forall r, c :: Pos(r, c) in grown && IconLineAt(G, r, c) ==> LinesCleared(G, r, c, Elems(grown))
    ensures ScanState(G, V0 + Elems(grown), groups + [grown])
  {
    CellsSnoc(groups, grown);
    LinesStep(G, V0, Cells(groups), grown, Cells(groups + [grown]));
    KeptSnoc(G, groups, grown, V0, V0 + Elems(grown));
    DisjointSnoc(groups, grown, V0);
  }

  /** The scan state after a flood whose group is dropped: it holds no line. */
  lemma ScanSkip(G: Grid, V0: set<Pos>, groups: seq<seq<Pos>>, grown: seq<Pos>)
    requires ScanState(G, V0, groups)
    requires VisitedClosed(G, V0 + Elems(grown))
    requires forall r, c :: Pos(r, c) in grown ==> !IconLineAt(G, r, c)
    ensures ScanState(G, V0 + Elems(grown), groups)
  {
    LinesStep(G, V0, Cells(groups), grown, Cells(groups));
    forall i | 0 <= i < |groups|
      ensures Elems(groups[i]) <= V0 + Elems(grown)
    {
      assert Elems(groups[i]) <= V0;
    }
  }

  lemma KeptSnoc(G: Grid, groups: seq<seq<Pos>>, grown: seq<Pos>, V0: set<Pos>, V: set<Pos>)
    requires forall i :: 0 <= i < |groups| ==> Kept(G, groups[i]) && Elems(groups[i]) <= V0
    requires Kept(G, grown) && V0 <= V && Elems(grown) <= V
    ensures forall i :: 0 <= i < |groups + [grown]| ==> Kept(G, (groups + [grown])[i]) && Elems((groups + [grown])[i]) <= V
  {
    var gs := groups + [grown];
    forall i | 0 <= i < |gs|
      ensures Kept(G, gs[i]) && Elems(gs[i]) <= V
    {
      if i < |groups| {
        assert gs[i] == groups[i];
      }
    }
  }

  lemma DisjointSnoc(groups: seq<seq<Pos>>, grown: seq<Pos>, V0: set<Pos>)
    requires forall i :: 0 <= i < |groups| ==> Elems(groups[i]) <= V0
    requires forall i, j :: 0 <= i < j < |groups| ==> Elems(groups[i]) !! Elems(groups[j])
    requires Elems(grown) !! V0
    ensures forall i, j :: 0 <= i < j < |groups + [grown]| ==> Elems((groups + [grown])[i]) !! Elems((groups + [grown])[j])
  {
    var gs := groups + [grown];
    forall i, j | 0 <= i < j < |gs|
      ensures Elems(gs[i]) !! Elems(gs[j])
    {
      assert gs[i] == groups[i];
      if j == |groups| {
        assert Elems(gs[i]) <= V0;
      } else {
        assert gs[j] == groups[j];
      }
    }
  }

  /**
   * One turn of the scan at (r, c): an unvisited cell holding an icon starts a
   * flood with a fresh group, which is kept when it has at least three cells
   * and `isValidGroup` accepts it.
   */
  method ScanCell(grid: array2<Sym>, visited: array2<bool>, r: int, c: int, groups: seq<seq<Pos>>, ghost G: Grid)
    returns (groups': seq<seq<Pos>>)
    requires SameShape(grid, visited) && InBounds(grid, r, c) && G == Snapshot(grid)
    requires ScanState(G, VisitedSet(visited), groups)
    modifies visited
    ensures ScanState(G, VisitedSet(visited), groups')
    ensures old(VisitedSet(visited)) <= VisitedSet(visited)
    ensures G[r][c] != Null ==> Pos(r, c) in VisitedSet(visited)
  {
    groups' := groups;
    if !visited[r, c] && grid[r, c] != Null {
      ghost var V0 := VisitedSet(visited);
      var icon := grid[r, c];
      assert Pos(r, c) in Holding(grid, icon) - V0;
      var group := Flood(grid, visited, r, c, icon, []);
      HoldingIs(grid, G);
      AddedToEmpty(group);
      NewComponent(G, V0, group, Pos(r, c), icon);
      ClosedAfterFlood(G, V0, Elems(group), icon);
      var kept := false;
      if |group| >= 3 {
        kept := IsValidGroup(group);
      }
      if kept {
        ScanKeep(G, V0, groups, group);
        groups' := groups + [group];
      } else {
        ScanSkip(G, V0, groups, group);
      }
    }
  }

  /** The inner loop of the scan: every cell of row `r`, left to right. */
  method ScanRow(grid: array2<Sym>, visited: array2<bool>, r: int, groups: seq<seq<Pos>>, ghost G: Grid)
    returns (groups': seq<seq<Pos>>)
    requires SameShape(grid, visited) && 0 <= r < grid.Length0 && G == Snapshot(grid)
    requires ScanState(G, VisitedSet(visited), groups) && Scanned(G, VisitedSet(visited), r, 0)
    modifies visited
    ensures ScanState(G, VisitedSet(visited), groups') && Scanned(G, VisitedSet(visited), r + 1, 0)
  {
    groups' := groups;
    for c := 0 to grid.Length1
      invariant ScanState(G, VisitedSet(visited), groups') && Scanned(G, VisitedSet(visited), r, c)
    {
      groups' := ScanCell(grid, visited, r, c, groups', G);
    }
  }

  // ---------------------------------------------------------------- clearing

  /** `grid[r][c] = null` for one cell. */
  method ClearCell(grid: array2<Sym>, p: Pos)
    requires InBounds(grid, p.r, p.c)
    modifies grid
    ensures Snapshot(grid) == ClearAt(old(Snapshot(grid)), {p})
  {
    ghost var before := Snapshot(grid);
    grid[p.r, p.c] := Null;
    ClearAtCells(before, {p});
    SnapshotIs(grid, ClearAt(before, {p}));
  }

  /** The inner clearing loop: every cell of one group. */
  method ClearGroup(grid: array2<Sym>, group: seq<Pos>)
    requires forall p :: p in group ==> InBounds(grid, p.r, p.c)
    modifies grid
    ensures Snapshot(grid) == ClearAt(old(Snapshot(grid)), Elems(group))
  {
    ghost var before := Snapshot(grid);
    ClearAtNothing(before);
    assert Elems(group[..0]) == {};
    for j := 0 to |group|
      invariant Snapshot(grid) == ClearAt(before, Elems(group[..j]))
    {
      ClearCell(grid, group[j]);
      ClearAtUnion(before, Elems(group[..j]), {group[j]});
      assert group[..j + 1] == group[..j] + [group[j]];
      assert Elems(group[..j + 1]) == Elems(group[..j]) + {group[j]};
    }
    assert group[..|group|] == group;
  }

  /** The clearing loop of `detectMatches`: every cell of every kept group becomes empty. */
  method ClearGroups(grid: array2<Sym>, groups: seq<seq<Pos>>)
    requires forall i, p :: 0 <= i < |groups| && p in groups[i] ==> InBounds(grid, p.r, p.c)
    modifies grid
    ensures Snapshot(grid) == ClearAt(old(Snapshot(grid)), Cells(groups))
  {
    ghost var before := Snapshot(grid);
    ClearAtNothing(before);
    assert groups[..0] == [];
    for i := 0 to |groups|
      invariant Snapshot(grid) == ClearAt(before, Cells(groups[..i]))
    {
      ClearGroup(grid, groups[i]);
      ClearAtUnion(before, Cells(groups[..i]), Elems(groups[i]));
      assert groups[..i + 1] == groups[..i] + [groups[i]];
      CellsSnoc(groups[..i], groups[i]);
    }
    assert groups[..|groups|] == groups;
  }

  // ---------------------------------------------------------------- detectMatches

  /** The cells of a kept group hold its icon, so they lie on the board. */
  lemma KeptCells(G: Grid, g: seq<Pos>)
    requires Component(G, g)
    ensures forall p :: p in g ==> p in CellsHolding(G, G[g[0].r][g[0].c])
  {
    forall p | p in g
      ensures p in CellsHolding(G, G[g[0].r][g[0].c])
    {
      var path :| IsPathIn(path, CellsHolding(G, G[g[0].r][g[0].c])) && path[0] == g[0] && path[|path| - 1] == p;
    }
  }

  /** A kept group's run of three is a straight line of three icons on the board. */
  lemma KeptHasLine(G: Grid, g: seq<Pos>)
    requires Kept(G, g)
    ensures HasIconLine(G)
  {
    KeptCells(G, g);
    var r, c :| RowRunAt(g, r, c) || ColRunAt(g, r, c);
    assert LineAt(G, r, c) && G[r][c] != Null;
  }

  /** Once every icon cell is visited, every line of three icons lies in the kept groups. */
  lemma ScanFinished(G: Grid, V: set<Pos>, S: set<Pos>)
    requires forall r, c :: Pos(r, c) in V ==> LinesCleared(G, r, c, S)
    requires Scanned(G, V, |G|, 0)
    ensures forall r, c :: LinesCleared(G, r, c, S)
  {
    forall r, c
      ensures LinesCleared(G, r, c, S)
    {
      if IconLineAt(G, r, c) {
        assert Pos(r, c) in V;
      }
    }
  }

  /** A line of three icons that lies in the kept groups means a group was kept. */
  lemma LineMeansKept(G: Grid, groups: seq<seq<Pos>>)
    requires forall r, c :: LinesCleared(G, r, c, Cells(groups))
    requires HasIconLine(G)
    ensures groups != []
  {
    var r, c :| LineAt(G, r, c) && G[r][c] != Null;
    assert LinesCleared(G, r, c, Cells(groups));
  }

  /**
   * `detectMatches()`. The board is scanned in row-major order; each unvisited
   * icon cell starts a flood whose group is kept when it has three cells or
   * more and `isValidGroup` accepts it; then every cell of every kept group is
   * emptied. The answer is whether a group was kept, which is exactly whether
   * the board had a straight line of three equal icons. Kept groups are
   * disjoint whole same-icon regions, each with a line of three, and every
   * line of three icons is cleared.
   */
  method DetectMatches(grid: array2<Sym>) returns (matched: bool, groups: seq<seq<Pos>>)
    modifies grid
    ensures matched <==> groups != []
    ensures matched <==> HasIconLine(old(Snapshot(grid)))
    ensures forall i :: 0 <= i < |groups| ==> Kept(old(Snapshot(grid)), groups[i])
    ensures forall i, j :: 0 <= i < j < |groups| ==> Elems(groups[i]) !! Elems(groups[j])
    ensures forall r, c :: LinesCleared(old(Snapshot(grid)), r, c, Cells(groups))
    ensures Snapshot(grid) == ClearAt(old(Snapshot(grid)), Cells(groups))
  {
    ghost var G := Snapshot(grid);
    var visited := new bool[grid.Length0, grid.Length1]((i, j) => false);
    assert VisitedSet(visited) == {};
    groups := [];
    for r := 0 to grid.Length0
      invariant ScanState(G, VisitedSet(visited), groups) && Scanned(G, VisitedSet(visited), r, 0)
      invariant Snapshot(grid) == G
    {
      groups := ScanRow(grid, visited, r, groups, G);
    }
    ScanFinished(G, VisitedSet(visited), Cells(groups));
    if groups != [] {
      KeptHasLine(G, groups[0]);
    }
    if HasIconLine(G) {
      LineMeansKept(G, groups);
    }
    forall i, p | 0 <= i < |groups| && p in groups[i]
      ensures InBounds(grid, p.r, p.c)
    {
      KeptCells(G, groups[i]);
    }
    ClearGroups(grid, groups);
    matched := |groups| > 0;
  }
}
