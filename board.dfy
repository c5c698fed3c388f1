/**
 * The `Board` class of script2.js. Its cells are `Cell` objects that carry an
 * icon and a `visited` flag; here the icons form the `grid` array and the flags
 * the parallel `visited` array, one entry per cell position.
 *
 * Match detection (`deleteMatch` with `dfs`) works differently from script.js.
 * A cell joins a group only when it is a centre: both neighbours along one
 * axis hold the same icon as the cell. Those two neighbours join with it. The
 * search then walks on through the neighbours, never straight back to where it
 * came from. A scan over a board with no visited cells clears exactly the cells
 * that lie on a straight line of three equal symbols.
 */
module CellBoard {
  import opened Symbols
  import opened Grids
  import opened Gravity
  import opened Directions
  import opened Detect

  // ---------------------------------------------------------------- geometry of centres and lines

  /** `p` is the middle of a vertical or a horizontal line of three equal symbols. */
  ghost predicate Centre(G: Grid, p: Pos)
  {
    VLineAt(G, p.r - 1, p.c) || HLineAt(G, p.r, p.c - 1)
  }

  /** The centre `p` and the neighbours on each axis along which it matches are in `A`. */
  ghost predicate Covered(G: Grid, A: set<Pos>, p: Pos)
  {
    p in A &&
    (VLineAt(G, p.r - 1, p.c) ==> Pos(p.r - 1, p.c) in A && Pos(p.r + 1, p.c) in A) &&
    (HLineAt(G, p.r, p.c - 1) ==> Pos(p.r, p.c - 1) in A && Pos(p.r, p.c + 1) in A)
  }

  /** `p` is one of the three cells of some straight line of three equal symbols. */
  ghost predicate OnLine(G: Grid, p: Pos)
  {
    HLineAt(G, p.r, p.c) || HLineAt(G, p.r, p.c - 1) || HLineAt(G, p.r, p.c - 2) ||
    VLineAt(G, p.r, p.c) || VLineAt(G, p.r - 1, p.c) || VLineAt(G, p.r - 2, p.c)
  }

  /** A centre `y` holding `s` has been visited. */
  ghost predicate Joins(G: Grid, V: set<Pos>, s: Sym, y: Pos)
  {
    Centre(G, y) && Holds(G, y.r, y.c, s) ==> y in V
  }

  /** Every orthogonal neighbour of `x` that is a centre with `x`'s symbol has been visited. */
  ghost predicate ClosedAt(G: Grid, V: set<Pos>, x: Pos)
  {
    InGrid(G, x.r, x.c) &&
    Joins(G, V, G[x.r][x.c], Step(x, 0)) && Joins(G, V, G[x.r][x.c], Step(x, 1)) &&
    Joins(G, V, G[x.r][x.c], Step(x, 2)) && Joins(G, V, G[x.r][x.c], Step(x, 3))
  }

  /** What a search leaves behind at a cell it marked: a centre, covered, with its neighbourhood searched. */
  ghost predicate Found(G: Grid, A: set<Pos>, V: set<Pos>, icon: Sym, p: Pos)
  {
    Centre(G, p) && Holds(G, p.r, p.c, icon) && Covered(G, A, p) && ClosedAt(G, V, p)
  }

  /** Every cell of `S` holds `icon` and lies on a line of three. */
  ghost predicate Gathered(G: Grid, S: set<Pos>, icon: Sym)
  {
    forall a :: a in S ==> Holds(G, a.r, a.c, icon) && OnLine(G, a)
  }

  /** The cells a search adds at the centre `p`: `p` and its neighbours on each matching axis. */
  ghost function CentreCells(G: Grid, p: Pos): set<Pos>
  {
    MatchCells(p, VLineAt(G, p.r - 1, p.c), HLineAt(G, p.r, p.c - 1))
  }

  /** The cells added at the centres of `W`. */
  ghost function Spans(G: Grid, W: set<Pos>): set<Pos>
  {
    set p, a | p in W && a in CentreCells(G, p) :: a
  }

  /** The cells added at the centres of `X` are among those added at the centres of a larger `Y`. */
  lemma SpansGrow(G: Grid, X: set<Pos>, Y: set<Pos>)
    requires X <= Y
    ensures Spans(G, X) <= Spans(G, Y)
  {
    forall a | a in Spans(G, X)
      ensures a in Spans(G, Y)
    {
      var p :| p in X && a in CentreCells(G, p);
      assert p in Y;
    }
  }

  /**
   * A search for `icon` that took the visited cells from `V0` to `V1` and the
   * collected cells from `A0` to `A1`: every cell it marked is a centre it
   * covered, and the cells it added are those centres and their axis pairs.
   */
  ghost predicate Explored(G: Grid, V0: set<Pos>, A0: set<Pos>, V1: set<Pos>, A1: set<Pos>, icon: Sym)
  {
    V0 <= V1 && A0 <= A1 && Gathered(G, A1 - A0, icon) && (A1 != A0 ==> V1 != V0) &&
    A1 <= A0 + Spans(G, V1 - V0) &&
    forall p :: p in V1 && p !in V0 ==> Found(G, A1, V1, icon, p)
  }

  lemma ExploredNothing(G: Grid, V: set<Pos>, A: set<Pos>, icon: Sym)
    ensures Explored(G, V, A, V, A, icon)
  {
  }

  /** Two searches one after the other. */
  lemma ExploredTrans(G: Grid, V0: set<Pos>, A0: set<Pos>, V1: set<Pos>, A1: set<Pos>, V2: set<Pos>, A2: set<Pos>, icon: Sym)
    requires Explored(G, V0, A0, V1, A1, icon) && Explored(G, V1, A1, V2, A2, icon)
    ensures Explored(G, V0, A0, V2, A2, icon)
  {
    forall p | p in V2 && p !in V0
      ensures Found(G, A2, V2, icon, p)
    {
      if p in V1 {
        assert Found(G, A1, V1, icon, p);
      }
    }
    if A2 != A0 {
      var y :| y in (if A1 != A0 then V1 - V0 else V2 - V1);
      assert y in V2 - V0;
    }
    SpansGrow(G, V1 - V0, V2 - V0);
    SpansGrow(G, V2 - V1, V2 - V0);
  }

  /** The cells `dfs` adds at the centre `p`: `p`, and the two neighbours on each matching axis. */
  ghost function MatchCells(p: Pos, vertical: bool, horizontal: bool): set<Pos>
  {
    {p} + (if vertical then {Pos(p.r - 1, p.c), Pos(p.r + 1, p.c)} else {}) +
    (if horizontal then {Pos(p.r, p.c - 1), Pos(p.r, p.c + 1)} else {})
  }

  /** The cells added at a centre cover it, hold its symbol and lie on lines of three. */
  lemma MatchAdds(G: Grid, A0: set<Pos>, p: Pos, icon: Sym, vertical: bool, horizontal: bool)
    requires Holds(G, p.r, p.c, icon)
    requires vertical == VLineAt(G, p.r - 1, p.c) && horizontal == HLineAt(G, p.r, p.c - 1)
    requires vertical || horizontal
    ensures Covered(G, A0 + MatchCells(p, vertical, horizontal), p)
    ensures Gathered(G, (A0 + MatchCells(p, vertical, horizontal)) - A0, icon)
  {
    forall a | a in MatchCells(p, vertical, horizontal)
      ensures Holds(G, a.r, a.c, icon) && OnLine(G, a)
    {
    }
  }

  /** Joining is kept as more cells are visited. */
  lemma JoinsGrow(G: Grid, V: set<Pos>, W: set<Pos>, icon: Sym, x: Pos, i: int)
    requires V <= W && 0 <= i < 4
    requires forall j :: 0 <= j < i ==> Joins(G, V, icon, Step(x, j))
    requires Joins(G, W, icon, Step(x, i))
    ensures forall j :: 0 <= j <= i ==> Joins(G, W, icon, Step(x, j))
  {
  }

  /** A search step at the centre `x`: marking it and adding it, then searching on from it. */
  lemma MatchDone(G: Grid, V0: set<Pos>, A0: set<Pos>, V1: set<Pos>, A1: set<Pos>, V2: set<Pos>, A2: set<Pos>, x: Pos, icon: Sym)
    requires V1 == V0 + {x} && x !in V0 && A0 <= A1 && A1 <= A0 + CentreCells(G, x)
    requires Centre(G, x) && Holds(G, x.r, x.c, icon) && Covered(G, A1, x)
    requires Gathered(G, A1 - A0, icon)
    requires Explored(G, V1, A1, V2, A2, icon)
    requires forall i :: 0 <= i < 4 ==> Joins(G, V2, icon, Step(x, i))
    ensures Explored(G, V0, A0, V2, A2, icon)
  {
    assert ClosedAt(G, V2, x) by {
      assert Joins(G, V2, icon, Step(x, 0)) && Joins(G, V2, icon, Step(x, 1));
      assert Joins(G, V2, icon, Step(x, 2)) && Joins(G, V2, icon, Step(x, 3));
    }
    assert Found(G, A2, V2, icon, x);
    assert A2 - A0 == (A1 - A0) + (A2 - A1);
    assert x in V2 - V0;
    assert CentreCells(G, x) <= Spans(G, V2 - V0);
    SpansGrow(G, V2 - V1, V2 - V0);
  }

  /** A centre's cells, once covered, are three distinct cells of the set. */
  lemma CoveredThree(G: Grid, A: set<Pos>, p: Pos)
    requires Centre(G, p) && Covered(G, A, p)
    ensures |A| >= 3
  {
    var a, b := if VLineAt(G, p.r - 1, p.c) then Pos(p.r - 1, p.c) else Pos(p.r, p.c - 1),
                if VLineAt(G, p.r - 1, p.c) then Pos(p.r + 1, p.c) else Pos(p.r, p.c + 1);
    assert {p, a, b} <= A;
    assert |{p, a, b}| == 3;
    SubsetCard({p, a, b}, A);
  }

  lemma {:induction false} SubsetCard(S: set<Pos>, T: set<Pos>)
    requires S <= T
    ensures |S| <= |T|
  {
    if S != {} {
      var x :| x in S;
      SubsetCard(S - {x}, T - {x});
    }
  }

  /**
   * A search that collected something from an empty start collected at least
   * three distinct cells: those of the first centre it marked.
   */
  lemma ExploredThree(G: Grid, V0: set<Pos>, V1: set<Pos>, A1: set<Pos>, icon: Sym)
    requires Explored(G, V0, {}, V1, A1, icon) && A1 != {}
    ensures |A1| >= 3
  {
    var p :| p in V1 && p !in V0;
    CoveredThree(G, A1, p);
  }

  /** The additions `dfs` makes to `matchedSet` at a centre, in the source's order. */
  function AddMatch(ms: seq<Pos>, p: Pos, vertical: bool, horizontal: bool): (t: seq<Pos>)
    ensures Elems(t) == Elems(ms) + MatchCells(p, vertical, horizontal)
  {
    var t0 := SetAdd(ms, p);
    var t1 := if vertical then SetAdd(SetAdd(t0, Pos(p.r - 1, p.c)), Pos(p.r + 1, p.c)) else t0;
    if horizontal then SetAdd(SetAdd(t1, Pos(p.r, p.c - 1)), Pos(p.r, p.c + 1)) else t1
  }

  /** A set holding the string keys of `matchedSet`: adding a key already present changes nothing. */
  function SetAdd(s: seq<Pos>, p: Pos): (t: seq<Pos>)
    ensures Elems(t) == Elems(s) + {p}
    ensures p in s ==> t == s
    ensures p !in s ==> |t| == |s| + 1
  {
    if p in s then s else s + [p]
  }

  // ---------------------------------------------------------------- the row-major sweep of `deleteMatch`

  /** (p.r, p.c) comes before (r, c) in row-major order. */
  predicate Before(p: Pos, r: int, c: int)
  {
    p.r < r || (p.r == r && p.c < c)
  }

  /** Visited cells lie on the board, and those the sweep has not reached yet are centres. */
  ghost predicate Visits(G: Grid, V: set<Pos>, r: int, c: int)
  {
    forall m :: m in V ==> InGrid(G, m.r, m.c) && (Before(m, r, c) || Centre(G, m))
  }

  /** Every visited centre is covered by `A` and has all its same-symbol centre neighbours visited. */
  ghost predicate Centres(G: Grid, V: set<Pos>, A: set<Pos>)
  {
    forall m :: m in V && Centre(G, m) ==> Covered(G, A, m) && ClosedAt(G, V, m)
  }

  /** For every horizontal line of three whose first cell the sweep has passed, the middle cell is visited. */
  ghost predicate RowMiddles(G: Grid, V: set<Pos>, r: int, c: int)
  {
    forall i, j :: HLineAt(G, i, j) && Before(Pos(i, j), r, c) ==> Pos(i, j + 1) in V
  }

  /** For every vertical line of three whose first cell the sweep has passed, the middle cell is visited. */
  ghost predicate ColMiddles(G: Grid, V: set<Pos>, r: int, c: int)
  {
    forall i, j :: VLineAt(G, i, j) && Before(Pos(i, j), r, c) ==> Pos(i + 1, j) in V
  }

  /** What holds before the sweep reaches (r, c), when it started with no cell visited. */
  ghost predicate SweepInv(G: Grid, V: set<Pos>, A: set<Pos>, r: int, c: int)
  {
    Visits(G, V, r, c) && Centres(G, V, A) && RowMiddles(G, V, r, c) && ColMiddles(G, V, r, c)
  }

  /** Every cell of the board before (r, c) is visited. */
  ghost predicate Swept(G: Grid, V: set<Pos>, r: int, c: int)
  {
    forall i, j :: InGrid(G, i, j) && Before(Pos(i, j), r, c) ==> Pos(i, j) in V
  }

  /**
   * A group of `deleteGroup`: at least three distinct cells, all holding the
   * symbol of the first and lying on lines of three.
   */
  ghost predicate GroupOk(G: Grid, g: seq<Pos>)
  {
    g != [] && |Elems(g)| >= 3 && InGrid(G, g[0].r, g[0].c) && Gathered(G, Elems(g), G[g[0].r][g[0].c])
  }

  lemma SweepStart(G: Grid)
    ensures SweepInv(G, {}, {}, 0, 0)
  {
  }

  lemma ClosedAtGrows(G: Grid, V: set<Pos>, W: set<Pos>, x: Pos)
    requires ClosedAt(G, V, x) && V <= W
    ensures ClosedAt(G, W, x)
  {
  }

  lemma RowMiddlesAdvance(G: Grid, V: set<Pos>, r: int, c: int)
    requires RowMiddles(G, V, r, c)
    requires HLineAt(G, r, c) ==> Pos(r, c + 1) in V
    ensures RowMiddles(G, V, r, c + 1)
  {
    forall i, j | HLineAt(G, i, j) && Before(Pos(i, j), r, c + 1)
      ensures Pos(i, j + 1) in V
    {
      if Pos(i, j) != Pos(r, c) {
        assert Before(Pos(i, j), r, c);
      }
    }
  }

  lemma ColMiddlesAdvance(G: Grid, V: set<Pos>, r: int, c: int)
    requires ColMiddles(G, V, r, c)
    requires VLineAt(G, r, c) ==> Pos(r + 1, c) in V
    ensures ColMiddles(G, V, r, c + 1)
  {
    forall i, j | VLineAt(G, i, j) && Before(Pos(i, j), r, c + 1)
      ensures Pos(i + 1, j) in V
    {
      if Pos(i, j) != Pos(r, c) {
        assert Before(Pos(i, j), r, c);
      }
    }
  }

  /** Once the lines starting at (r, c) have their middle cells visited, the sweep may move one cell on. */
  lemma SweepAdvance(G: Grid, V: set<Pos>, A: set<Pos>, r: int, c: int)
    requires Visits(G, V, r, c + 1) && Centres(G, V, A) && RowMiddles(G, V, r, c) && ColMiddles(G, V, r, c)
    requires HLineAt(G, r, c) ==> Pos(r, c + 1) in V
    requires VLineAt(G, r, c) ==> Pos(r + 1, c) in V
    ensures SweepInv(G, V, A, r, c + 1)
  {
    RowMiddlesAdvance(G, V, r, c);
    ColMiddlesAdvance(G, V, r, c);
  }

  /** The sweep never reaches an unvisited centre: the line through it was seen from its first cell. */
  lemma SweepNotCentre(G: Grid, V: set<Pos>, A: set<Pos>, r: int, c: int)
    requires SweepInv(G, V, A, r, c) && Pos(r, c) !in V
    ensures !Centre(G, Pos(r, c))
  {
    assert Before(Pos(r - 1, c), r, c);
    assert Before(Pos(r, c - 1), r, c);
  }

  /**
   * The sweep at an unvisited cell (r, c), which is not a centre, once it is
   * marked and the four searches from it ran.
   */
  lemma SweepGrow(G: Grid, V: set<Pos>, prior: set<Pos>, V': set<Pos>, A: set<Pos>, r: int, c: int)
    requires SweepInv(G, V, prior, r, c) && InGrid(G, r, c) && !Centre(G, Pos(r, c))
    requires Explored(G, V + {Pos(r, c)}, {}, V', A, G[r][c])
    ensures Visits(G, V', r, c + 1) && Centres(G, V', prior + A)
    ensures RowMiddles(G, V', r, c) && ColMiddles(G, V', r, c)
  {
    forall m | m in V' && Centre(G, m)
      ensures Covered(G, prior + A, m) && ClosedAt(G, V', m)
    {
      if m in V {
        ClosedAtGrows(G, V, V', m);
      } else {
        assert Found(G, A, V', G[r][c], m);
      }
    }
    forall m | m in V'
      ensures InGrid(G, m.r, m.c) && (Before(m, r, c + 1) || Centre(G, m))
    {
      if m !in V && m != Pos(r, c) {
        assert Found(G, A, V', G[r][c], m);
      }
    }
  }

  /** At a closed cell, the cell after it on a row line has been visited. */
  lemma SweepSeenRow(G: Grid, V: set<Pos>, r: int, c: int)
    requires ClosedAt(G, V, Pos(r, c)) && HLineAt(G, r, c)
    ensures Pos(r, c + 1) in V
  {
    assert Joins(G, V, G[r][c], Step(Pos(r, c), 0));
    assert Centre(G, Pos(r, c + 1));
  }

  /** At a closed cell, the cell below it on a column line has been visited. */
  lemma SweepSeenCol(G: Grid, V: set<Pos>, r: int, c: int)
    requires ClosedAt(G, V, Pos(r, c)) && VLineAt(G, r, c)
    ensures Pos(r + 1, c) in V
  {
    assert Joins(G, V, G[r][c], Step(Pos(r, c), 3));
    assert Centre(G, Pos(r + 1, c));
  }

  /** At a visited cell the sweep moves on without visiting anything. */
  lemma SweepSeen(G: Grid, V: set<Pos>, A: set<Pos>, r: int, c: int)
    requires SweepInv(G, V, A, r, c) && Pos(r, c) in V
    ensures SweepInv(G, V, A, r, c + 1)
  {
    assert Centre(G, Pos(r, c));
    assert ClosedAt(G, V, Pos(r, c));
    if HLineAt(G, r, c) {
      SweepSeenRow(G, V, r, c);
    }
    if VLineAt(G, r, c) {
      SweepSeenCol(G, V, r, c);
    }
    SweepAdvance(G, V, A, r, c);
  }

  /** The end of a row is the start of the next. */
  lemma SweepRowDone(G: Grid, V: set<Pos>, A: set<Pos>, r: int, cols: nat)
    requires IsGrid(G, |G|, cols) && 0 <= r < |G|
    requires SweepInv(G, V, A, r, cols)
    ensures SweepInv(G, V, A, r + 1, 0)
  {
  }

  lemma SweptRowDone(G: Grid, V: set<Pos>, r: int, cols: nat)
    requires IsGrid(G, |G|, cols) && 0 <= r < |G|
    requires Swept(G, V, r, cols)
    ensures Swept(G, V, r + 1, 0)
  {
  }

  /** When a sweep that started with no cell visited is over, every cell on a line of three has been collected. */
  lemma SweepComplete(G: Grid, V: set<Pos>, A: set<Pos>)
    requires SweepInv(G, V, A, |G|, 0)
    ensures forall p :: OnLine(G, p) ==> p in A
  {
    forall p | OnLine(G, p)
      ensures p in A
    {
      if HLineAt(G, p.r, p.c) {
        assert Covered(G, A, Pos(p.r, p.c + 1));
      } else if HLineAt(G, p.r, p.c - 1) {
        assert Covered(G, A, p);
      } else if HLineAt(G, p.r, p.c - 2) {
        assert Covered(G, A, Pos(p.r, p.c - 1));
      } else if VLineAt(G, p.r, p.c) {
        assert Covered(G, A, Pos(p.r + 1, p.c));
      } else if VLineAt(G, p.r - 1, p.c) {
        assert Covered(G, A, p);
      } else {
        assert Covered(G, A, Pos(p.r - 1, p.c));
      }
    }
  }

  /** A board has a line of three exactly when some cell lies on one. */
  lemma LineIffOnLine(G: Grid)
    ensures HasLine(G) <==> exists p :: OnLine(G, p)
  {
    if HasLine(G) {
      var r, c :| LineAt(G, r, c);
      assert OnLine(G, Pos(r, c));
    }
    if exists p :: OnLine(G, p) {
      var p :| OnLine(G, p);
      if HLineAt(G, p.r, p.c) || VLineAt(G, p.r, p.c) {
        assert LineAt(G, p.r, p.c);
      } else if HLineAt(G, p.r, p.c - 1) {
        assert LineAt(G, p.r, p.c - 1);
      } else if HLineAt(G, p.r, p.c - 2) {
        assert LineAt(G, p.r, p.c - 2);
      } else if VLineAt(G, p.r - 1, p.c) {
        assert LineAt(G, p.r - 1, p.c);
      } else {
        assert LineAt(G, p.r - 2, p.c);
      }
    }
  }

  /** The sweep has passed one more cell once that cell is visited. */
  lemma SweptStep(G: Grid, V: set<Pos>, W: set<Pos>, r: int, c: int)
    requires Swept(G, V, r, c) && V <= W && Pos(r, c) in W
    ensures Swept(G, W, r, c + 1)
  {
  }

  /** A group's cells hold symbols, so they lie on the board. */
  lemma GroupOnBoard(G: Grid, gs: seq<seq<Pos>>)
    requires forall k :: 0 <= k < |gs| ==> GroupOk(G, gs[k])
    ensures forall k, p :: 0 <= k < |gs| && p in gs[k] ==> InGrid(G, p.r, p.c)
  {
    forall k, p | 0 <= k < |gs| && p in gs[k]
      ensures InGrid(G, p.r, p.c)
    {
      assert p in Elems(gs[k]);
    }
  }

  /** Once the sweep has passed the last row, every cell of the board is visited. */
  lemma SweptAll(G: Grid, V: set<Pos>, rows: nat, cols: nat)
    requires IsGrid(G, rows, cols) && Swept(G, V, rows, 0)
    ensures AllCells(rows, cols) <= V
  {
    forall p | p in AllCells(rows, cols)
      ensures p in V
    {
      assert InGrid(G, p.r, p.c) && Before(p, rows, 0);
    }
  }

  /** Every collected cell lies on a line of three. */
  lemma {:induction false} CellsOnLine(G: Grid, gs: seq<seq<Pos>>)
    requires forall k :: 0 <= k < |gs| ==> GroupOk(G, gs[k])
    ensures forall p :: p in Cells(gs) ==> OnLine(G, p)
  {
    if gs != [] {
      var last := gs[|gs| - 1];
      CellsOnLine(G, gs[..|gs| - 1]);
      assert GroupOk(G, last);
    }
  }

  /**
   * What the scan of `deleteMatch` establishes: groups are found exactly when
   * the board has a line of three, and when the scan started with no cell
   * visited, the groups take in every cell on such a line.
   */
  lemma ScanFindings(G: Grid, V: set<Pos>, gs: seq<seq<Pos>>, clean: bool)
    requires forall k :: 0 <= k < |gs| ==> GroupOk(G, gs[k])
    requires clean ==> SweepInv(G, V, Cells(gs), |G|, 0)
    ensures forall p :: p in Cells(gs) ==> OnLine(G, p)
    ensures clean ==> forall p :: OnLine(G, p) ==> p in Cells(gs)
    ensures |gs| > 0 ==> HasLine(G)
    ensures clean ==> (|gs| > 0 <==> HasLine(G))
  {
    CellsOnLine(G, gs);
    LineIffOnLine(G);
    if |gs| > 0 {
      assert GroupOk(G, gs[0]);
      assert gs[0][0] in Elems(gs[0]);
    }
    if clean {
      SweepComplete(G, V, Cells(gs));
    }
  }

  /** The state of the scan of `deleteMatch` before cell (r, c). */
  ghost predicate Progress(G: Grid, V: set<Pos>, gs: seq<seq<Pos>>, r: int, c: int, clean: bool)
  {
    Swept(G, V, r, c) &&
    (forall k :: 0 <= k < |gs| ==> GroupOk(G, gs[k])) &&
    (clean ==> SweepInv(G, V, Cells(gs), r, c))
  }

  /** The groups stay well formed when a non-empty `matchedSet` of cell (r, c) joins them. */
  lemma GroupsSnoc(G: Grid, gs: seq<seq<Pos>>, ms: seq<Pos>, r: int, c: int)
    requires forall k :: 0 <= k < |gs| ==> GroupOk(G, gs[k])
    requires |ms| > 0 && |Elems(ms)| >= 3 && InGrid(G, r, c) && Gathered(G, Elems(ms), G[r][c])
    ensures forall k :: 0 <= k < |gs + [ms]| ==> GroupOk(G, (gs + [ms])[k])
  {
    assert ms[0] in Elems(ms);
    assert GroupOk(G, ms);
  }

  /** One cell of the scan: its `matchedSet` is kept when it is not empty. */
  lemma ProgressStep(G: Grid, V: set<Pos>, V': set<Pos>, gs: seq<seq<Pos>>, ms: seq<Pos>, r: int, c: int, clean: bool)
    requires Progress(G, V, gs, r, c, clean) && InGrid(G, r, c)
    requires V <= V' && Pos(r, c) in V' && Gathered(G, Elems(ms), G[r][c])
    requires |ms| > 0 ==> |Elems(ms)| >= 3
    requires clean ==> SweepInv(G, V', Cells(gs) + Elems(ms), r, c + 1)
    ensures Progress(G, V', if |ms| > 0 then gs + [ms] else gs, r, c + 1, clean)
  {
    SweptStep(G, V, V', r, c);
    var gs' := if |ms| > 0 then gs + [ms] else gs;
    if |ms| > 0 {
      GroupsSnoc(G, gs, ms, r, c);
      CellsSnoc(gs, ms);
    } else {
      assert Elems(ms) == {};
      assert Cells(gs) + Elems(ms) == Cells(gs);
    }
    assert Cells(gs') == Cells(gs) + Elems(ms);
  }

  lemma ProgressRowDone(G: Grid, V: set<Pos>, gs: seq<seq<Pos>>, r: int, cols: nat, clean: bool)
    requires IsGrid(G, |G|, cols) && 0 <= r < |G|
    requires Progress(G, V, gs, r, cols, clean)
    ensures Progress(G, V, gs, r + 1, 0, clean)
  {
    SweptRowDone(G, V, r, cols);
    if clean {
      SweepRowDone(G, V, Cells(gs), r, cols);
    }
  }

  /** The icons of a new board from `init`: every cell gets a random icon. */
  method NewIcons(rows: nat, cols: nat) returns (a: array2<Sym>)
    ensures fresh(a) && a.Length0 == rows && a.Length1 == cols
    ensures forall i, j :: 0 <= i < rows && 0 <= j < cols ==> a[i, j] in Icons
  {
    a := new Sym[rows, cols];
    for r := 0 to rows
      invariant forall i, j :: 0 <= i < r && 0 <= j < cols ==> a[i, j] in Icons
    {
      for c := 0 to cols
        invariant forall i, j :: 0 <= i < r && 0 <= j < cols ==> a[i, j] in Icons
        invariant forall j :: 0 <= j < c ==> a[r, j] in Icons
      {
        a[r, c] := RandomIcon();
      }
    }
  }

  /**
   * One round of `processChain` from the board `b` to the board `a`: `deleteMatch`
   * found a line and cleared exactly the cells `S` on lines of three, then the
   * board was dropped and refilled.
   */
  ghost predicate CellRound(b: Grid, S: set<Pos>, a: Grid)
  {
    HasLine(b) && (forall p :: p in S <==> OnLine(b, p)) && Dropped(a, ClearAt(b, S))
  }

  /** After a round the board has no `null` cell: every gap was refilled. */
  lemma CellRoundIsFull(b: Grid, S: set<Pos>, a: Grid)
    requires CellRound(b, S, a)
    ensures Full(a)
  {
    DroppedIsFull(a, ClearAt(b, S));
  }

  /** A snapshot of one `Cell`: its position, icon and `visited` flag. */
  datatype Cell = Cell(row: int, col: int, icon: Sym, visited: bool)

  class Board {
    const rows: nat
    const cols: nat
    /** The icons of the cells, `grid[r][c].icon`. */
    const grid: array2<Sym>
    /** The `visited` flags of the cells, `grid[r][c].visited`. */
    const visited: array2<bool>
    /** The groups found by the last `deleteMatch`. */
    var deleteGroup: seq<seq<Pos>>

    /** Both arrays have the board's shape. */
    predicate Shaped()
    {
      grid.Length0 == rows && grid.Length1 == cols && visited.Length0 == rows && visited.Length1 == cols
    }

    predicate NoneVisited()
      reads visited
    {
      forall i, j :: 0 <= i < visited.Length0 && 0 <= j < visited.Length1 ==> !visited[i, j]
    }

    /** No cell is marked visited; `processChain` restores this after `deleteMatch`. */
    predicate Valid()
      reads visited
    {
      Shaped() && NoneVisited()
    }

    /** `constructor` with `init()`: a `rows` by `cols` board of random icons, no cell visited. */
    constructor(rows: nat, cols: nat)
      ensures Valid() && this.rows == rows && this.cols == cols && deleteGroup == []
      ensures fresh(grid) && fresh(visited)
      ensures forall i, j :: 0 <= i < rows && 0 <= j < cols ==> grid[i, j] in Icons
    {
      var icons := NewIcons(rows, cols);
      this.rows := rows;
      this.cols := cols;
      grid := icons;
      visited := new bool[rows, cols]((i, j) => false);
      deleteGroup := [];
    }

    // ------------------------------------------------------------ small helpers

    /** `isInBounds(r, c)`: (r, c) is a position of the board. */
    predicate IsInBounds(r: int, c: int): (b: bool)
      ensures b <==> Pos(r, c) in AllCells(rows, cols)
    {
      r >= 0 && r < rows && c >= 0 && c < cols
    }

    /** `getCell(r, c)`: no cell (`null`) off the board. */
    function GetCell(r: int, c: int): (cell: Option<Cell>)
      requires Shaped()
      reads grid, visited
      ensures cell.None? <==> !IsInBounds(r, c)
      ensures cell.Some? ==> cell.value == Cell(r, c, Snapshot(grid)[r][c], Pos(r, c) in VisitedSet(visited))
    {
      if r < 0 || r >= rows || c < 0 || c >= cols then None
      else Some(Cell(r, c, grid[r, c], visited[r, c]))
    }

    /** `setVisited(state)` on the cell at `p`. */
    method SetVisited(p: Pos, state: bool)
      requires Shaped() && IsInBounds(p.r, p.c)
      modifies visited
      ensures state ==> VisitedSet(visited) == old(VisitedSet(visited)) + {p}
      ensures !state ==> VisitedSet(visited) == old(VisitedSet(visited)) - {p}
    {
      visited[p.r, p.c] := state;
    }

    // ------------------------------------------------------------ dfs

    /**
     * `dfs(r, c, icon, way, matchedSet)`. A cell off the board, already visited or
     * holding another symbol stops the search, and so does a cell that is not a
     * centre (it is left unvisited). A centre is marked visited and joins
     * `matchedSet` together with its matching neighbours; the search then goes on
     * in every direction except back towards `Source(p, way)`, the caller's cell.
     */
    method Dfs(r: int, c: int, icon: Sym, way: seq<int>, matchedSet: seq<Pos>, ghost G: Grid) returns (ms: seq<Pos>)
      requires Shaped() && Snapshot(grid) == G && IsWay(way)
      requires Source(Pos(r, c), way) in VisitedSet(visited)
      modifies visited
      ensures Explored(G, old(VisitedSet(visited)), Elems(matchedSet), VisitedSet(visited), Elems(ms), icon)
      ensures Centre(G, Pos(r, c)) && Holds(G, r, c, icon) ==> Pos(r, c) in VisitedSet(visited)
      ensures !(IsInBounds(r, c) && !old(visited[r, c]) && G[r][c] == icon && Centre(G, Pos(r, c))) ==>
        ms == matchedSet && VisitedSet(visited) == old(VisitedSet(visited))
      decreases AllCells(rows, cols) - VisitedSet(visited), 1
    {
      ms := matchedSet;
      ExploredNothing(G, VisitedSet(visited), Elems(ms), icon);
      if !IsInBounds(r, c) || visited[r, c] || grid[r, c] != icon {
        return;
      }
      var hasVerticalMatch, hasHorizontalMatch := Axes(r, c, icon, G);
      if !hasVerticalMatch && !hasHorizontalMatch {
        return;
      }
      ms := Match(r, c, icon, way, ms, hasVerticalMatch, hasHorizontalMatch, G);
    }

    /**
     * The neighbour tests of `dfs` at a cell holding `icon`: both vertical
     * neighbours hold `icon`, and both horizontal neighbours hold `icon`.
     */
    method Axes(r: int, c: int, icon: Sym, ghost G: Grid) returns (hasVerticalMatch: bool, hasHorizontalMatch: bool)
      requires Shaped() && Snapshot(grid) == G && IsInBounds(r, c) && G[r][c] == icon
      ensures hasVerticalMatch == VLineAt(G, r - 1, c)
      ensures hasHorizontalMatch == HLineAt(G, r, c - 1)
    {
      var up := IsInBounds(r - 1, c) && grid[r - 1, c] == icon;
      var down := IsInBounds(r + 1, c) && grid[r + 1, c] == icon;
      var left := IsInBounds(r, c - 1) && grid[r, c - 1] == icon;
      var right := IsInBounds(r, c + 1) && grid[r, c + 1] == icon;
      hasVerticalMatch := up && down;
      hasHorizontalMatch := left && right;
    }

    /**
     * The rest of `dfs` at an unvisited centre (r, c): mark it, add it and its
     * matching neighbours, then search on.
     */
    method Match(r: int, c: int, icon: Sym, way: seq<int>, matchedSet: seq<Pos>,
                 hasVerticalMatch: bool, hasHorizontalMatch: bool, ghost G: Grid) returns (ms: seq<Pos>)
      requires Shaped() && Snapshot(grid) == G && IsWay(way)
      requires Source(Pos(r, c), way) in VisitedSet(visited)
      requires IsInBounds(r, c) && !visited[r, c] && Holds(G, r, c, icon)
      requires hasVerticalMatch == VLineAt(G, r - 1, c) && hasHorizontalMatch == HLineAt(G, r, c - 1)
      requires hasVerticalMatch || hasHorizontalMatch
      modifies visited
      ensures Explored(G, old(VisitedSet(visited)), Elems(matchedSet), VisitedSet(visited), Elems(ms), icon)
      ensures Pos(r, c) in VisitedSet(visited)
      decreases AllCells(rows, cols) - VisitedSet(visited), 0
    {
      ghost var V0 := VisitedSet(visited);
      ghost var A0 := Elems(matchedSet);
      MatchAdds(G, A0, Pos(r, c), icon, hasVerticalMatch, hasHorizontalMatch);
      ms := MarkCentre(r, c, matchedSet, hasVerticalMatch, hasHorizontalMatch);
      ghost var A1 := Elems(ms);
      ghost var V1 := VisitedSet(visited);
      ms := Onward(r, c, icon, way, ms, G);
      MatchDone(G, V0, A0, V1, A1, VisitedSet(visited), Elems(ms), Pos(r, c), icon);
    }

    /** `this.setVisited(r, c, true)` and the additions to `matchedSet` at the centre (r, c). */
    method MarkCentre(r: int, c: int, matchedSet: seq<Pos>, hasVerticalMatch: bool, hasHorizontalMatch: bool)
      returns (ms: seq<Pos>)
      requires Shaped() && IsInBounds(r, c) && !visited[r, c]
      modifies visited
      ensures Pos(r, c) !in old(VisitedSet(visited)) && VisitedSet(visited) == old(VisitedSet(visited)) + {Pos(r, c)}
      ensures Elems(ms) == Elems(matchedSet) + MatchCells(Pos(r, c), hasVerticalMatch, hasHorizontalMatch)
    {
      SetVisited(Pos(r, c), true);
      ms := AddMatch(matchedSet, Pos(r, c), hasVerticalMatch, hasHorizontalMatch);
    }

    /** The recursive calls at the end of `dfs`, in the directions `invertWay(way)` leaves open. */
    method Onward(r: int, c: int, icon: Sym, way: seq<int>, matchedSet: seq<Pos>, ghost G: Grid) returns (ms: seq<Pos>)
      requires Shaped() && Snapshot(grid) == G && IsWay(way)
      requires Pos(r, c) in VisitedSet(visited) && Source(Pos(r, c), way) in VisitedSet(visited)
      modifies visited
      ensures Explored(G, old(VisitedSet(visited)), Elems(matchedSet), VisitedSet(visited), Elems(ms), icon)
      ensures forall i :: 0 <= i < 4 ==> Joins(G, VisitedSet(visited), icon, Step(Pos(r, c), i))
      decreases AllCells(rows, cols) - VisitedSet(visited), 3
    {
      var newWay := InvertWay(way);
      ghost var V0 := VisitedSet(visited);
      ghost var A0 := Elems(matchedSet);
      ExploredNothing(G, V0, A0, icon);
      ms := Next(r, c, 0, icon, way, newWay, matchedSet, G, V0, A0);
      ms := Next(r, c, 1, icon, way, newWay, ms, G, V0, A0);
      ms := Next(r, c, 2, icon, way, newWay, ms, G, V0, A0);
      ms := Next(r, c, 3, icon, way, newWay, ms, G, V0, A0);
    }

    /**
     * `if (newWay[i]) this.dfs(...)`: the recursive call of `dfs` from (r, c) in
     * direction `i`, inside a search that started from `V0` and `A0`. The
     * neighbours in directions up to `i` are then searched, or are the caller's cell.
     */
    method Next(r: int, c: int, i: int, icon: Sym, way: seq<int>, newWay: seq<int>, matchedSet: seq<Pos>,
                ghost G: Grid, ghost V0: set<Pos>, ghost A0: set<Pos>)
      returns (ms: seq<Pos>)
      requires Shaped() && Snapshot(grid) == G && 0 <= i < 4 && IsWay(way) && newWay == InvertWay(way)
      requires Pos(r, c) in VisitedSet(visited) && Source(Pos(r, c), way) in VisitedSet(visited)
      requires Explored(G, V0, A0, VisitedSet(visited), Elems(matchedSet), icon)
      requires forall j :: 0 <= j < i ==> Joins(G, VisitedSet(visited), icon, Step(Pos(r, c), j))
      modifies visited
      ensures Explored(G, V0, A0, VisitedSet(visited), Elems(ms), icon)
      ensures forall j :: 0 <= j <= i ==> Joins(G, VisitedSet(visited), icon, Step(Pos(r, c), j))
      ensures Source(Pos(r, c), way) in VisitedSet(visited)
      ensures old(VisitedSet(visited)) <= VisitedSet(visited)
      decreases AllCells(rows, cols) - VisitedSet(visited), 2
    {
      ghost var Vb := VisitedSet(visited);
      ms := matchedSet;
      if newWay[i] != 0 {
        var q := Step(Pos(r, c), i);
        BackPointsHome(Pos(r, c), i);
        ms := Dfs(q.r, q.c, icon, Back(i), matchedSet, G);
        ExploredTrans(G, V0, A0, Vb, Elems(matchedSet), VisitedSet(visited), Elems(ms), icon);
      } else {
        InvertWayOneHot(way);
        assert Step(Pos(r, c), i) == Source(Pos(r, c), way);
      }
      JoinsGrow(G, Vb, VisitedSet(visited), icon, Pos(r, c), i);
    }

    // ------------------------------------------------------------ deleteMatch

    /**
     * The four calls of `dfs` that `deleteMatch` makes from the visited cell
     * (r, c): to the left, right, down and up, each with (r, c) as its source.
     */
    method Spread(r: int, c: int, ghost G: Grid) returns (matchedSet: seq<Pos>)
      requires Shaped() && Snapshot(grid) == G && IsInBounds(r, c) && Pos(r, c) in VisitedSet(visited)
      modifies visited
      ensures Explored(G, old(VisitedSet(visited)), {}, VisitedSet(visited), Elems(matchedSet), G[r][c])
      ensures HLineAt(G, r, c) ==> Pos(r, c + 1) in VisitedSet(visited)
      ensures VLineAt(G, r, c) ==> Pos(r + 1, c) in VisitedSet(visited)
    {
      var icon := grid[r, c];
      ghost var V0 := VisitedSet(visited);
      matchedSet := Dfs(r, c - 1, icon, Right, [], G);
      ghost var V1, A1 := VisitedSet(visited), Elems(matchedSet);
      matchedSet := Dfs(r, c + 1, icon, Left, matchedSet, G);
      ghost var V2, A2 := VisitedSet(visited), Elems(matchedSet);
      ExploredTrans(G, V0, {}, V1, A1, V2, A2, icon);
      matchedSet := Dfs(r + 1, c, icon, Up, matchedSet, G);
      ghost var V3, A3 := VisitedSet(visited), Elems(matchedSet);
      ExploredTrans(G, V0, {}, V2, A2, V3, A3, icon);
      matchedSet := Dfs(r - 1, c, icon, Down, matchedSet, G);
      ExploredTrans(G, V0, {}, V3, A3, VisitedSet(visited), Elems(matchedSet), icon);
    }

    /**
     * One cell of the scan of `deleteMatch`: an unvisited cell is marked and
     * searched from; the cells found form its `matchedSet`. When the scan
     * started with no cell visited, `prior` are the cells collected before.
     */
    method GatherAt(r: int, c: int, ghost G: Grid, ghost prior: set<Pos>, ghost clean: bool) returns (matchedSet: seq<Pos>)
      requires Shaped() && Snapshot(grid) == G && IsInBounds(r, c)
      requires clean ==> SweepInv(G, VisitedSet(visited), prior, r, c)
      modifies visited
      ensures old(VisitedSet(visited)) <= VisitedSet(visited) && Pos(r, c) in VisitedSet(visited)
      ensures Gathered(G, Elems(matchedSet), G[r][c])
      ensures |matchedSet| > 0 ==> |Elems(matchedSet)| >= 3
      ensures clean ==> SweepInv(G, VisitedSet(visited), prior + Elems(matchedSet), r, c + 1)
    {
      ghost var V := VisitedSet(visited);
      matchedSet := [];
      if !visited[r, c] {
        if clean {
          SweepNotCentre(G, V, prior, r, c);
        }
        SetVisited(Pos(r, c), true);
        matchedSet := Spread(r, c, G);
        if |matchedSet| > 0 {
          assert matchedSet[0] in Elems(matchedSet);
          ExploredThree(G, V + {Pos(r, c)}, VisitedSet(visited), Elems(matchedSet), G[r][c]);
        }
        if clean {
          SweepGrow(G, V, prior, VisitedSet(visited), Elems(matchedSet), r, c);
          SweepAdvance(G, VisitedSet(visited), prior + Elems(matchedSet), r, c);
        }
      } else if clean {
        SweepSeen(G, V, prior, r, c);
      }
    }

    /** The scan of `deleteMatch` at cell (r, c): gather from it and keep a non-empty `matchedSet`. */
    method ScanCell(r: int, c: int, ghost G: Grid, ghost clean: bool)
      requires Shaped() && Snapshot(grid) == G && IsInBounds(r, c)
      requires Progress(G, VisitedSet(visited), deleteGroup, r, c, clean)
      modifies this, visited
      ensures Progress(G, VisitedSet(visited), deleteGroup, r, c + 1, clean)
    {
      ghost var V := VisitedSet(visited);
      var matchedSet := GatherAt(r, c, G, Cells(deleteGroup), clean);
      ProgressStep(G, V, VisitedSet(visited), deleteGroup, matchedSet, r, c, clean);
      if |matchedSet| > 0 {
        deleteGroup := deleteGroup + [matchedSet];
      }
    }

    /** The inner loop of the scan of `deleteMatch`, over row `r`. */
    method ScanRow(r: int, ghost G: Grid, ghost clean: bool)
      requires Shaped() && Snapshot(grid) == G && 0 <= r < rows
      requires Progress(G, VisitedSet(visited), deleteGroup, r, 0, clean)
      modifies this, visited
      ensures Progress(G, VisitedSet(visited), deleteGroup, r + 1, 0, clean)
    {
      for c := 0 to cols
        invariant Progress(G, VisitedSet(visited), deleteGroup, r, c, clean)
      {
        ScanCell(r, c, G, clean);
      }
      ProgressRowDone(G, VisitedSet(visited), deleteGroup, r, cols, clean);
    }

    /** The scan of `deleteMatch` over all cells in row-major order, filling `deleteGroup`. */
    method Scan(ghost G: Grid)
      requires Shaped() && Snapshot(grid) == G
      modifies this, visited
      ensures forall k :: 0 <= k < |deleteGroup| ==> GroupOk(G, deleteGroup[k])
      ensures Swept(G, VisitedSet(visited), rows, 0)
      ensures old(NoneVisited()) ==> SweepInv(G, VisitedSet(visited), Cells(deleteGroup), rows, 0)
    {
      deleteGroup := [];
      ghost var clean := NoneVisited();
      if clean {
        assert VisitedSet(visited) == {};
        SweepStart(G);
      }
      for r := 0 to rows
        invariant Progress(G, VisitedSet(visited), deleteGroup, r, 0, clean)
      {
        ScanRow(r, G, clean);
      }
    }

    /**
     * `deleteMatch`: scan the board, then set every collected cell to no icon,
     * and answer the number of groups. Every cell is visited afterwards. The
     * groups are found exactly when the board held a line of three; when no
     * cell was visited beforehand, the cells cleared are exactly those on a
     * line of three equal symbols, empty cells included.
     */
    method DeleteMatch() returns (n: int)
      requires Shaped()
      modifies this, grid, visited
      ensures n == |deleteGroup|
      ensures forall k :: 0 <= k < |deleteGroup| ==> GroupOk(old(Snapshot(grid)), deleteGroup[k])
      ensures Snapshot(grid) == ClearAt(old(Snapshot(grid)), Cells(deleteGroup))
      ensures AllCells(rows, cols) <= VisitedSet(visited)
      ensures forall p :: p in Cells(deleteGroup) ==> OnLine(old(Snapshot(grid)), p)
      ensures old(NoneVisited()) ==> forall p :: OnLine(old(Snapshot(grid)), p) ==> p in Cells(deleteGroup)
      ensures n > 0 ==> HasLine(old(Snapshot(grid)))
      ensures old(NoneVisited()) ==> (n > 0 <==> HasLine(old(Snapshot(grid))))
    {
      ghost var G := Snapshot(grid);
      ghost var clean := NoneVisited();
      Scan(G);
      SweptAll(G, VisitedSet(visited), rows, cols);
      ScanFindings(G, VisitedSet(visited), deleteGroup, clean);
      GroupOnBoard(G, deleteGroup);
      ClearGroups(grid, deleteGroup);
      n := |deleteGroup|;
    }

    // ------------------------------------------------------------ the other operations

    /** `swapIcons(cell1, cell2)`: exchange the icons of two cells through a temporary. */
    method SwapIcons(p: Pos, q: Pos)
      requires Shaped() && IsInBounds(p.r, p.c) && IsInBounds(q.r, q.c)
      modifies grid
      ensures Snapshot(grid) == SwapAt(old(Snapshot(grid)), p, q)
    {
      ghost var g := Snapshot(grid);
      var temp := grid[p.r, p.c];
      grid[p.r, p.c] := grid[q.r, q.c];
      grid[q.r, q.c] := temp;
      SwapAtExchanges(g, p, q);
      SnapshotIs(grid, SwapAt(g, p, q));
    }

    /** `resetVisited()`: clear the `visited` flag of every cell. */
    method ResetVisited()
      requires Shaped()
      modifies visited
      ensures NoneVisited() && VisitedSet(visited) == {}
    {
      for r := 0 to rows
        invariant forall i, j :: 0 <= i < r && 0 <= j < cols ==> !visited[i, j]
      {
        for c := 0 to cols
          invariant forall i, j :: 0 <= i < r && 0 <= j < cols ==> !visited[i, j]
          invariant forall j :: 0 <= j < c ==> !visited[r, j]
        {
          visited[r, c] := false;
        }
      }
    }

    /** `dropGems()`: let the icons of every column fall and refill the cells above them. */
    method DropGems()
      requires Shaped()
      modifies grid
      ensures Dropped(Snapshot(grid), old(Snapshot(grid)))
    {
      Gravity.DropGems(grid);
    }

    /**
     * `processChain()`: clear the matches, reset the flags, and when something
     * was cleared drop, reset again and start over. The source re-arms itself
     * through timers with no bound on the number of rounds; here at most `fuel`
     * rounds run. `boards` are the boards between rounds and `cleared` the cells
     * each round cleared. `settled` says the last scan found no group, so the
     * board holds no line of three equal symbols.
     */
    method ProcessChain(fuel: nat)
      returns (rounds: nat, settled: bool, ghost boards: seq<Grid>, ghost cleared: seq<set<Pos>>)
      requires Valid()
      modifies this, grid, visited
      ensures Valid()
      ensures rounds <= fuel
      ensures |boards| == rounds + 1 && boards[0] == old(Snapshot(grid)) && boards[rounds] == Snapshot(grid)
      ensures |cleared| == rounds && forall i :: 0 <= i < rounds ==> CellRound(boards[i], cleared[i], boards[i + 1])
      ensures settled ==> !HasLine(Snapshot(grid))
      ensures !settled ==> rounds == fuel
      ensures fuel > 0 && !HasLine(old(Snapshot(grid))) ==>
        settled && rounds == 0 && Snapshot(grid) == old(Snapshot(grid))
    {
      rounds := 0;
      settled := false;
      boards := [Snapshot(grid)];
      cleared := [];
      while rounds < fuel
        invariant Valid()
        invariant rounds <= fuel
        invariant |boards| == rounds + 1 && boards[0] == old(Snapshot(grid)) && boards[rounds] == Snapshot(grid)
        invariant |cleared| == rounds && Trace(boards, cleared, CellRound)
        invariant !HasLine(old(Snapshot(grid))) ==> rounds == 0
        decreases fuel - rounds
      {
        var removed;
        ghost var S;
        removed, S := ChainStep();
        if !removed {
          settled := true;
          TraceSteps(boards, cleared, CellRound);
          return;
        }
        TraceSnoc(boards, cleared, CellRound, S, Snapshot(grid));
        boards := boards + [Snapshot(grid)];
        cleared := cleared + [S];
        rounds := rounds + 1;
      }
      TraceSteps(boards, cleared, CellRound);
    }

    /**
     * One pass of `processChain()`: `deleteMatch()`, reset the flags, and when
     * something was cleared `dropGems()` and reset again. `removed` says whether
     * anything was cleared, and then `S` is what the round cleared.
     */
    method ChainStep() returns (removed: bool, ghost S: set<Pos>)
      requires Valid()
      modifies this, grid, visited
      ensures Valid()
      ensures removed <==> HasLine(old(Snapshot(grid)))
      ensures !removed ==> Snapshot(grid) == old(Snapshot(grid))
      ensures removed ==> CellRound(old(Snapshot(grid)), S, Snapshot(grid))
    {
      ghost var before := Snapshot(grid);
      var matchedCount := DeleteMatch();
      ResetVisited();
      S := Cells(deleteGroup);
      if matchedCount <= 0 {
        ClearAtNothing(before);
        removed := false;
        return;
      }
      DropGems();
      ResetVisited();
      removed := true;
    }
  }
}
