/**
 * `dropGems`, identical in both versions: each column is compacted downward in
 * place with a `pointer`, keeping the order of its non-null symbols, and the
 * rows left above the pointer are refilled with random icons.
 */
module Gravity {
  import opened Symbols
  import opened Grids

  /** The non-null entries of a column, top to bottom, in their original order. */
  function NonNull(s: seq<Sym>): (t: seq<Sym>)
    ensures |t| <= |s|
    ensures Null !in t
  {
    if s == [] then [] else (if s[0] != Null then [s[0]] else []) + NonNull(s[1..])
  }

  /** Column `c` of a grid, top to bottom. */
  function Column(g: Grid, c: int): (col: seq<Sym>)
    requires 0 <= c && forall i :: 0 <= i < |g| ==> c < |g[i]|
    ensures |col| == |g| && forall i :: 0 <= i < |g| ==> col[i] == g[i][c]
  {
    seq(|g|, i requires 0 <= i < |g| => g[i][c])
  }

  /**
   * `after` is `before` dropped and refilled: the non-null symbols of `before`
   * fill the bottom rows in their original order, every row above them holds an icon.
   */
  ghost predicate DroppedColumn(after: seq<Sym>, before: seq<Sym>)
  {
    var k := |before| - |NonNull(before)|;
    |after| == |before| && after[k..] == NonNull(before) &&
    forall i :: 0 <= i < k ==> after[i] in Icons
  }

  /** Every column of `after` is the corresponding column of `before` dropped and refilled. */
  ghost predicate Dropped(after: Grid, before: Grid)
  {
    exists cols: nat ::
      IsGrid(before, |before|, cols) && IsGrid(after, |before|, cols) &&
      forall c :: 0 <= c < cols ==> DroppedColumn(Column(after, c), Column(before, c))
  }

  // ---------------------------------------------------------------- properties

  /** Dropping keeps every icon: each non-null symbol occurs as often as before. */
  lemma {:induction false} NonNullKeepsIcons(s: seq<Sym>, x: Sym)
    requires x != Null
    ensures multiset(NonNull(s))[x] == multiset(s)[x]
  {
    if s != [] {
      NonNullKeepsIcons(s[1..], x);
      assert s == [s[0]] + s[1..];
    }
  }

  /** The number of refilled cells is the number of cleared cells. */
  lemma {:induction false} NonNullCount(s: seq<Sym>)
    ensures |s| - |NonNull(s)| == multiset(s)[Null]
  {
    if s != [] {
      NonNullCount(s[1..]);
      assert s == [s[0]] + s[1..];
    }
  }

  /** A column without gaps is left as it is. */
  lemma {:induction false} NonNullOfFull(s: seq<Sym>)
    requires Null !in s
    ensures NonNull(s) == s
  {
    if s != [] {
      NonNullOfFull(s[1..]);
      assert s == [s[0]] + s[1..];
    }
  }

  /** After a drop the column has no gap, and its survivors keep their counts. */
  lemma DroppedColumnIsFull(after: seq<Sym>, before: seq<Sym>)
    requires DroppedColumn(after, before)
    ensures Null !in after
    ensures forall x :: x != Null ==>
      multiset(after[|before| - |NonNull(before)|..])[x] == multiset(before)[x]
  {
    var k := |before| - |NonNull(before)|;
    assert after == after[..k] + after[k..];
    forall x | x != Null
      ensures multiset(after[k..])[x] == multiset(before)[x]
    {
      NonNullKeepsIcons(before, x);
    }
    assert Null !in Icons;
  }

  /** No cell of the board is `null`. */
  ghost predicate Full(g: Grid)
  {
    forall i, j :: 0 <= i < |g| && 0 <= j < |g[i]| ==> g[i][j] != Null
  }

  /** A dropped and refilled board has no `null` cell left. */
  lemma DroppedIsFull(after: Grid, before: Grid)
    requires Dropped(after, before)
    ensures Full(after)
  {
    var cols: nat :| IsGrid(before, |before|, cols) && IsGrid(after, |before|, cols) &&
      forall c :: 0 <= c < cols ==> DroppedColumn(Column(after, c), Column(before, c));
    forall i, j | 0 <= i < |after| && 0 <= j < |after[i]|
      ensures after[i][j] != Null
    {
      DroppedColumnIsFull(Column(after, j), Column(before, j));
      assert Column(after, j)[i] == after[i][j];
    }
  }

  /** Dropping a column that has no gap changes nothing. */
  lemma DroppedColumnOfFull(after: seq<Sym>, before: seq<Sym>)
    requires DroppedColumn(after, before) && Null !in before
    ensures after == before
  {
    NonNullOfFull(before);
  }

  /** The example of a fully cleared column: every row is refilled with an icon. */
  lemma DroppedColumnOfEmpty(after: seq<Sym>)
    requires DroppedColumn(after, [Null, Null, Null])
    ensures |after| == 3 && forall i :: 0 <= i < 3 ==> after[i] in Icons
  {
    assert NonNull([Null, Null, Null]) == [];
  }

  // ---------------------------------------------------------------- the in-place algorithm

  /** Column `c` of an array board, top to bottom. */
  ghost function ColumnOf(a: array2<Sym>, c: int): (col: seq<Sym>)
    reads a
    requires 0 <= c < a.Length1
    ensures |col| == a.Length0 && forall i :: 0 <= i < a.Length0 ==> col[i] == a[i, c]
  {
    seq(a.Length0, i requires 0 <= i < a.Length0 reads a => a[i, c])
  }

  /** `grid[p][c] = v`: one cell of column `c` changes, nothing else. */
  method WriteCell(a: array2<Sym>, c: int, p: int, v: Sym)
    requires 0 <= p < a.Length0 && 0 <= c < a.Length1
    modifies a
    ensures ColumnOf(a, c) == old(ColumnOf(a, c))[p := v]
    ensures forall i, j :: 0 <= i < a.Length0 && 0 <= j < a.Length1 && j != c ==> a[i, j] == old(a[i, j])
  {
    a[p, c] := v;
  }

  /**
   * The state of the compaction of `col` (of length `n`) with scan row `r`:
   * `cur` is the column so far; rows up to `r` are untouched and the rows below
   * `pointer` hold the non-null symbols found below `r`, in order.
   */
  ghost predicate Compacting(col: seq<Sym>, cur: seq<Sym>, done: seq<Sym>, r: int, pointer: int)
  {
    -1 <= r <= pointer < |col| && |cur| == |col| &&
    pointer == |col| - 1 - |done| &&
    done == NonNull(col[r + 1..]) &&
    cur[..r + 1] == col[..r + 1] &&
    cur[pointer + 1..] == done
  }

  /** One row of the compaction scan keeps its state. */
  lemma CompactStep(col: seq<Sym>, cur: seq<Sym>, done: seq<Sym>, r: int, pointer: int)
    requires Compacting(col, cur, done, r, pointer) && r >= 0
    ensures cur[r] == col[r]
    ensures col[r] != Null ==> Compacting(col, cur[pointer := col[r]], [col[r]] + done, r - 1, pointer - 1)
    ensures col[r] == Null ==> Compacting(col, cur, done, r - 1, pointer)
  {
    assert cur[r] == cur[..r + 1][r];
    assert col[r..][1..] == col[r + 1..];
    assert cur[..r] == cur[..r + 1][..r];
    if col[r] != Null {
      var cur' := cur[pointer := col[r]];
      assert cur'[..r] == cur[..r];
      assert cur'[pointer..] == [col[r]] + cur[pointer + 1..];
    }
  }

  /**
   * The compaction loop of one column: scanning from the bottom row up, every
   * non-null symbol is copied to row `pointer`, which then moves up one row.
   * Afterwards the rows below `pointer` hold the column's non-null symbols in order.
   */
  method CompactColumn(a: array2<Sym>, c: int) returns (pointer: int)
    requires 0 <= c < a.Length1
    modifies a
    ensures pointer == a.Length0 - 1 - |NonNull(old(ColumnOf(a, c)))|
    ensures ColumnOf(a, c)[pointer + 1..] == NonNull(old(ColumnOf(a, c)))
    ensures forall i, j :: 0 <= i < a.Length0 && 0 <= j < a.Length1 && j != c ==> a[i, j] == old(a[i, j])
  {
    ghost var col := ColumnOf(a, c);
    ghost var cur := col;
    ghost var done: seq<Sym> := [];
    pointer := a.Length0 - 1;
    var r := a.Length0 - 1;
    while r >= 0
      invariant Compacting(col, cur, done, r, pointer)
      invariant ColumnOf(a, c) == cur
      invariant forall i, j :: 0 <= i < a.Length0 && 0 <= j < a.Length1 && j != c ==> a[i, j] == old(a[i, j])
    {
      CompactStep(col, cur, done, r, pointer);
      if a[r, c] != Null {
        WriteCell(a, c, pointer, a[r, c]);
        cur := cur[pointer := col[r]];
        pointer := pointer - 1;
        done := [col[r]] + done;
      }
      r := r - 1;
    }
    assert col[0..] == col;
  }

  /** The refill loop of one column: rows `pointer` down to 0 receive random icons. */
  method RefillColumn(a: array2<Sym>, c: int, pointer: int)
    requires 0 <= c < a.Length1 && pointer < a.Length0
    modifies a
    ensures forall i :: 0 <= i <= pointer ==> a[i, c] in Icons
    ensures forall i, j :: 0 <= i < a.Length0 && 0 <= j < a.Length1 && !(j == c && i <= pointer) ==> a[i, j] == old(a[i, j])
  {
    var r := pointer;
    while r >= 0
      invariant r <= pointer
      invariant forall i :: r < i <= pointer && i >= 0 ==> a[i, c] in Icons
      invariant forall i, j :: 0 <= i < a.Length0 && 0 <= j < a.Length1 && !(j == c && r < i <= pointer) ==> a[i, j] == old(a[i, j])
    {
      var icon := RandomIcon();
      a[r, c] := icon;
      r := r - 1;
    }
  }

  /** One column of `dropGems`: compaction, then refill above the pointer. */
  method DropColumn(a: array2<Sym>, c: int)
    requires 0 <= c < a.Length1
    modifies a
    ensures DroppedColumn(ColumnOf(a, c), old(ColumnOf(a, c)))
    ensures forall i, j :: 0 <= i < a.Length0 && 0 <= j < a.Length1 && j != c ==> a[i, j] == old(a[i, j])
  {
    ghost var kept := NonNull(ColumnOf(a, c));
    var pointer := CompactColumn(a, c);
    RefillColumn(a, c, pointer);
    ghost var after := ColumnOf(a, c);
    assert forall i :: pointer < i < a.Length0 ==> after[i] == kept[i - pointer - 1];
    assert after[pointer + 1..] == kept;
  }

  /** `dropGems`: every column, left to right. */
  method DropGems(a: array2<Sym>)
    modifies a
    ensures Dropped(Snapshot(a), old(Snapshot(a)))
  {
    ghost var before := Snapshot(a);
    for c := 0 to a.Length1
      invariant forall j :: 0 <= j < c ==> DroppedColumn(Column(Snapshot(a), j), Column(before, j))
      invariant forall i, j :: 0 <= i < a.Length0 && c <= j < a.Length1 ==> a[i, j] == old(a[i, j])
    {
      ghost var done := Snapshot(a);
      assert ColumnOf(a, c) == Column(before, c);
      DropColumn(a, c);
      assert Column(Snapshot(a), c) == ColumnOf(a, c);
      forall j | 0 <= j < c
        ensures DroppedColumn(Column(Snapshot(a), j), Column(before, j))
      {
        assert Column(Snapshot(a), j) == Column(done, j);
      }
    }
  }

  // ---------------------------------------------------------------- chains of rounds

  /**
   * `boards[i + 1]` comes from `boards[i]` by one `step` that clears `moves[i]`,
   * for every `i`: the boards a cascade passes through, round by round.
   */
  ghost predicate Trace<M>(boards: seq<Grid>, moves: seq<M>, step: (Grid, M, Grid) -> bool)
    decreases |moves|
  {
    |boards| == |moves| + 1 &&
    (|moves| > 0 ==>
      var n := |moves| - 1;
      Trace(boards[..n + 1], moves[..n], step) && step(boards[n], moves[n], boards[n + 1]))
  }

  /** A trace extended by one more step is a trace. */
  lemma TraceSnoc<M>(boards: seq<Grid>, moves: seq<M>, step: (Grid, M, Grid) -> bool, m: M, a: Grid)
    requires Trace(boards, moves, step)
    requires step(boards[|boards| - 1], m, a)
    ensures Trace(boards + [a], moves + [m], step)
  {
    assert (boards + [a])[..|moves| + 1] == boards;
    assert (moves + [m])[..|moves|] == moves;
  }

  /** Every step of a trace is a `step`. */
  lemma {:induction false} TraceSteps<M>(boards: seq<Grid>, moves: seq<M>, step: (Grid, M, Grid) -> bool)
    requires Trace(boards, moves, step)
    ensures forall i :: 0 <= i < |moves| ==> step(boards[i], moves[i], boards[i + 1])
    decreases |moves|
  {
    if |moves| > 0 {
      var n := |moves| - 1;
      var bs, ms := boards[..n + 1], moves[..n];
      TraceSteps(bs, ms, step);
      forall i | 0 <= i < n
        ensures step(boards[i], moves[i], boards[i + 1])
      {
        assert step(bs[i], ms[i], bs[i + 1]);
      }
    }
  }
}
