/**
 * The board as a value: a rectangular grid of symbols, row 0 at the top, with the
 * geometry both engines share (straight lines of three, 4-adjacency, connectivity)
 * and the value-level effects of a swap and of clearing cells.
 */
module Grids {
  import opened Symbols

  /** A coordinate (row, column); the source writes it as the key string "r,c" or as [r, c]. */
  datatype Pos = Pos(r: int, c: int)

  type Grid = seq<seq<Sym>>

  ghost predicate IsGrid(g: Grid, rows: nat, cols: nat)
  {
    |g| == rows && forall i :: 0 <= i < |g| ==> |g[i]| == cols
  }

  predicate InGrid(g: Grid, r: int, c: int)
  {
    0 <= r < |g| && 0 <= c < |g[r]|
  }

  /** Cell (r, c) exists and holds `s`. */
  predicate Holds(g: Grid, r: int, c: int, s: Sym)
  {
    InGrid(g, r, c) && g[r][c] == s
  }

  /** Three equal symbols at (r, c), (r, c+1), (r, c+2). */
  predicate HLineAt(g: Grid, r: int, c: int)
  {
    InGrid(g, r, c) && Holds(g, r, c + 1, g[r][c]) && Holds(g, r, c + 2, g[r][c])
  }

  /** Three equal symbols at (r, c), (r+1, c), (r+2, c). */
  predicate VLineAt(g: Grid, r: int, c: int)
  {
    InGrid(g, r, c) && Holds(g, r + 1, c, g[r][c]) && Holds(g, r + 2, c, g[r][c])
  }

  /** A straight run of three starts at (r, c), going right or down. */
  predicate LineAt(g: Grid, r: int, c: int)
  {
    HLineAt(g, r, c) || VLineAt(g, r, c)
  }

  /** Some straight run of three equal symbols exists (the symbol may be `Null`). */
  ghost predicate HasLine(g: Grid)
  {
    exists r, c :: LineAt(g, r, c)
  }

  /** Some straight run of three equal icons exists (`Null` runs do not count). */
  ghost predicate HasIconLine(g: Grid)
  {
    exists r, c :: LineAt(g, r, c) && g[r][c] != Null
  }

  /** The value of an array board. */
  ghost function Snapshot(a: array2<Sym>): (g: Grid)
    reads a
    ensures IsGrid(g, a.Length0, a.Length1)
    ensures forall i, j :: 0 <= i < a.Length0 && 0 <= j < a.Length1 ==> g[i][j] == a[i, j]
  {
    seq(a.Length0, i requires 0 <= i < a.Length0 reads a =>
      seq(a.Length1, j requires 0 <= j < a.Length1 reads a => a[i, j]))
  }

  lemma SnapshotIs(a: array2<Sym>, g: Grid)
    requires IsGrid(g, a.Length0, a.Length1)
    requires forall i, j :: 0 <= i < a.Length0 && 0 <= j < a.Length1 ==> g[i][j] == a[i, j]
    ensures Snapshot(a) == g
  {
    var s := Snapshot(a);
    forall i | 0 <= i < |g|
      ensures s[i] == g[i]
    {
      assert |s[i]| == |g[i]|;
      assert forall j :: 0 <= j < |g[i]| ==> s[i][j] == g[i][j];
    }
  }

  // ---------------------------------------------------------------- swap

  /** The grid with the symbols at `p` and `q` exchanged (through a temporary, as the source does). */
  function SwapAt(g: Grid, p: Pos, q: Pos): (h: Grid)
    requires InGrid(g, p.r, p.c) && InGrid(g, q.r, q.c)
    ensures |h| == |g| && forall i :: 0 <= i < |g| ==> |h[i]| == |g[i]|
  {
    var temp := g[p.r][p.c];
    var g1 := g[p.r := g[p.r][p.c := g[q.r][q.c]]];
    g1[q.r := g1[q.r][q.c := temp]]
  }

  /** A swap exchanges exactly the two symbols and leaves every other cell alone. */
  lemma SwapAtExchanges(g: Grid, p: Pos, q: Pos)
    requires InGrid(g, p.r, p.c) && InGrid(g, q.r, q.c)
    ensures SwapAt(g, p, q)[p.r][p.c] == g[q.r][q.c]
    ensures SwapAt(g, p, q)[q.r][q.c] == g[p.r][p.c]
    ensures forall i, j :: InGrid(g, i, j) && Pos(i, j) != p && Pos(i, j) != q ==> SwapAt(g, p, q)[i][j] == g[i][j]
  {
  }

  /** Swapping the same two cells twice restores the grid. */
  lemma SwapAtInvolutive(g: Grid, p: Pos, q: Pos)
    requires InGrid(g, p.r, p.c) && InGrid(g, q.r, q.c)
    ensures SwapAt(SwapAt(g, p, q), p, q) == g
  {
    var h := SwapAt(SwapAt(g, p, q), p, q);
    SwapAtExchanges(g, p, q);
    SwapAtExchanges(SwapAt(g, p, q), p, q);
    forall i | 0 <= i < |g|
      ensures h[i] == g[i]
    {
      assert |h[i]| == |g[i]|;
      forall j | 0 <= j < |g[i]| ensures h[i][j] == g[i][j] {
        if Pos(i, j) == p || Pos(i, j) == q {
        }
      }
    }
  }

  // ---------------------------------------------------------------- clearing

  /** The grid with every cell whose position is in `S` set to `Null`. */
  function ClearAt(g: Grid, S: set<Pos>): (h: Grid)
    ensures |h| == |g| && forall i :: 0 <= i < |g| ==> |h[i]| == |g[i]|
  {
    seq(|g|, i requires 0 <= i < |g| =>
      seq(|g[i]|, j requires 0 <= j < |g[i]| => if Pos(i, j) in S then Null else g[i][j]))
  }

  /** Clearing empties the cells of `S` and keeps every other symbol. */
  lemma ClearAtCells(g: Grid, S: set<Pos>)
    ensures forall i, j :: InGrid(g, i, j) ==>
      ClearAt(g, S)[i][j] == if Pos(i, j) in S then Null else g[i][j]
  {
  }

  /** Clearing one set of cells and then another is clearing their union. */
  lemma ClearAtUnion(g: Grid, A: set<Pos>, B: set<Pos>)
    ensures ClearAt(ClearAt(g, A), B) == ClearAt(g, A + B)
  {
    var h, k := ClearAt(ClearAt(g, A), B), ClearAt(g, A + B);
    forall i | 0 <= i < |g|
      ensures h[i] == k[i]
    {
      assert |h[i]| == |k[i]|;
      assert forall j :: 0 <= j < |g[i]| ==> h[i][j] == k[i][j];
    }
  }

  /** Clearing nothing changes nothing. */
  lemma ClearAtNothing(g: Grid)
    ensures ClearAt(g, {}) == g
  {
    var h := ClearAt(g, {});
    forall i | 0 <= i < |g|
      ensures h[i] == g[i]
    {
      assert |h[i]| == |g[i]|;
    }
  }

  // ---------------------------------------------------------------- connectivity

  /** Orthogonal neighbours: one step along exactly one axis. */
  predicate Adjacent4(p: Pos, q: Pos)
  {
    (p.r == q.r && (p.c == q.c + 1 || q.c == p.c + 1)) ||
    (p.c == q.c && (p.r == q.r + 1 || q.r == p.r + 1))
  }

  ghost predicate IsPathIn(path: seq<Pos>, S: set<Pos>)
  {
    |path| > 0 &&
    (forall i :: 0 <= i < |path| ==> path[i] in S) &&
    (forall i :: 0 <= i < |path| - 1 ==> Adjacent4(path[i], path[i + 1]))
  }

  /** `b` is reachable from `a` by 4-adjacent steps that stay inside `S`. */
  ghost predicate Connected(S: set<Pos>, a: Pos, b: Pos)
  {
    exists path :: IsPathIn(path, S) && path[0] == a && path[|path| - 1] == b
  }

  /** The positions holding `s`. */
  ghost function CellsHolding(g: Grid, s: Sym): set<Pos>
  {
    set i, j | 0 <= i < |g| && 0 <= j < |g[i]| && g[i][j] == s :: Pos(i, j)
  }

  lemma ConnectedSelf(S: set<Pos>, a: Pos)
    requires a in S
    ensures Connected(S, a, a)
  {
    assert IsPathIn([a], S);
  }

  lemma ConnectedWithin(S: set<Pos>, T: set<Pos>, a: Pos, b: Pos)
    requires Connected(S, a, b) && S <= T
    ensures Connected(T, a, b)
  {
    var path :| IsPathIn(path, S) && path[0] == a && path[|path| - 1] == b;
    assert IsPathIn(path, T);
  }

  /** A step onto the start of a path extends it. */
  lemma ConnectedStep(S: set<Pos>, s: Pos, a: Pos, b: Pos)
    requires Connected(S, a, b) && Adjacent4(s, a)
    ensures Connected(S + {s}, s, b)
  {
    var path :| IsPathIn(path, S) && path[0] == a && path[|path| - 1] == b;
    var path' := [s] + path;
    assert forall i :: 0 < i < |path'| ==> path'[i] == path[i - 1];
    assert IsPathIn(path', S + {s});
  }

  /**
   * A set that contains `start` and every `Open` neighbour of each of its members
   * contains everything reachable from `start` inside `Open`.
   */
  lemma {:induction false} ClosedContainsReach(N: set<Pos>, Open: set<Pos>, start: Pos, q: Pos)
    requires start in N
    requires forall p, p' :: p in N && p' in Open && Adjacent4(p, p') ==> p' in N
    requires Connected(Open, start, q)
    ensures q in N
  {
    var path :| IsPathIn(path, Open) && path[0] == start && path[|path| - 1] == q;
    var i := 0;
    while i < |path| - 1
      invariant 0 <= i < |path|
      invariant path[i] in N
    {
      assert Adjacent4(path[i], path[i + 1]) && path[i + 1] in Open;
      i := i + 1;
    }
  }

  /** A step off the end of a path extends it. */
  lemma ConnectedAppend(S: set<Pos>, a: Pos, b: Pos, c: Pos)
    requires Connected(S, a, b) && Adjacent4(b, c) && c in S
    ensures Connected(S, a, c)
  {
    var path :| IsPathIn(path, S) && path[0] == a && path[|path| - 1] == b;
    var path' := path + [c];
    assert IsPathIn(path', S);
  }

  /**
   * A set `N` grown from `start` inside `Open`, whose members are all reachable
   * from `start` within `N` and which takes in every `Open` neighbour of its
   * members, is exactly the part of `Open` reachable from `start`.
   */
  lemma ReachableRegion(N: set<Pos>, Open: set<Pos>, start: Pos)
    requires start in N && N <= Open
    requires forall p :: p in N ==> Connected(N, start, p)
    requires forall p, p' :: p in N && p' in Open && Adjacent4(p, p') ==> p' in N
    ensures forall q :: q in N <==> Connected(Open, start, q)
  {
    forall q
      ensures q in N <==> Connected(Open, start, q)
    {
      if q in N {
        ConnectedWithin(N, Open, start, q);
      }
      if Connected(Open, start, q) {
        ClosedContainsReach(N, Open, start, q);
      }
    }
  }

  /**
   * If `C` is closed under adjacency inside `H` and `start` lies outside `C`,
   * every path from `start` inside `H` stays outside `C`.
   */
  lemma {:induction false} ConnectedAvoidsClosed(H: set<Pos>, C: set<Pos>, start: Pos, q: Pos)
    requires start !in C
    requires forall p, p' :: p in C && p' in H && Adjacent4(p, p') ==> p' in C
    requires Connected(H, start, q)
    ensures Connected(H - C, start, q)
  {
    var path :| IsPathIn(path, H) && path[0] == start && path[|path| - 1] == q;
    var i := 0;
    while i < |path| - 1
      invariant 0 <= i < |path|
      invariant forall k :: 0 <= k <= i ==> path[k] !in C
    {
      if path[i + 1] in C {
        assert Adjacent4(path[i + 1], path[i]) && path[i] in H;
      }
      i := i + 1;
    }
    assert IsPathIn(path, H - C);
  }
}
