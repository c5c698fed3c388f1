/**
 * `isValidGroup` (script.js): a group of positions is kept only if some row of
 * it holds three consecutive column indices, or some column three consecutive
 * row indices. The source buckets the positions by row and by column in two
 * maps and asks `hasConsecutive` of every bucket.
 */
module Groups {
  import opened Grids
  import opened Consecutive

  /** The column indices of the members of `group` in row `r`, in group order (`rowsMap.get(r)`). */
  function ColsInRow(group: seq<Pos>, r: int): seq<int>
  {
    if group == [] then []
    else
      var last := group[|group| - 1];
      ColsInRow(group[..|group| - 1], r) + (if last.r == r then [last.c] else [])
  }

  /** The row indices of the members of `group` in column `c`, in group order (`colsMap.get(c)`). */
  function RowsInCol(group: seq<Pos>, c: int): seq<int>
  {
    if group == [] then []
    else
      var last := group[|group| - 1];
      RowsInCol(group[..|group| - 1], c) + (if last.c == c then [last.r] else [])
  }

  /** Three horizontally consecutive positions starting at (r, c) all belong to `group`. */
  ghost predicate RowRunAt(group: seq<Pos>, r: int, c: int)
  {
    Pos(r, c) in group && Pos(r, c + 1) in group && Pos(r, c + 2) in group
  }

  /** Three vertically consecutive positions starting at (r, c) all belong to `group`. */
  ghost predicate ColRunAt(group: seq<Pos>, r: int, c: int)
  {
    Pos(r, c) in group && Pos(r + 1, c) in group && Pos(r + 2, c) in group
  }

  /** The group holds a straight line of three, along a row or along a column. */
  ghost predicate HasRun(group: seq<Pos>)
  {
    exists r, c :: RowRunAt(group, r, c) || ColRunAt(group, r, c)
  }

  // ---------------------------------------------------------------- buckets and runs

  /** Row `r`'s bucket holds exactly the column indices of the group's members in row `r`. */
  lemma {:induction false} ColsInRowMembers(group: seq<Pos>, r: int)
    ensures forall c :: c in ColsInRow(group, r) <==> Pos(r, c) in group
  {
    if group != [] {
      var init, last := group[..|group| - 1], group[|group| - 1];
      assert group == init + [last];
      ColsInRowMembers(init, r);
    }
  }

  /** Column `c`'s bucket holds exactly the row indices of the group's members in column `c`. */
  lemma {:induction false} RowsInColMembers(group: seq<Pos>, c: int)
    ensures forall r :: r in RowsInCol(group, c) <==> Pos(r, c) in group
  {
    if group != [] {
      var init, last := group[..|group| - 1], group[|group| - 1];
      assert group == init + [last];
      RowsInColMembers(init, c);
    }
  }

  /** A group without repeated positions has no repeated index in any bucket. */
  lemma {:induction false} ColsInRowDistinct(group: seq<Pos>, r: int)
    requires Distinct(group)
    ensures Distinct(ColsInRow(group, r))
  {
    if group != [] {
      var init := group[..|group| - 1];
      var last := group[|group| - 1];
      assert Distinct(init);
      ColsInRowDistinct(init, r);
      ColsInRowMembers(init, r);
      if last.r == r {
        assert last !in init;
        assert last.c !in ColsInRow(init, r);
      }
    }
  }

  lemma {:induction false} RowsInColDistinct(group: seq<Pos>, c: int)
    requires Distinct(group)
    ensures Distinct(RowsInCol(group, c))
  {
    if group != [] {
      var init := group[..|group| - 1];
      var last := group[|group| - 1];
      assert Distinct(init);
      RowsInColDistinct(init, c);
      RowsInColMembers(init, c);
      if last.c == c {
        assert last !in init;
        assert last.r !in RowsInCol(init, c);
      }
    }
  }

  /** Row `r`'s bucket holds three consecutive values exactly when the group has a run in row `r`. */
  lemma RowBucketRun(group: seq<Pos>, r: int)
    ensures HasValueRun(ColsInRow(group, r), 3) <==> exists c :: RowRunAt(group, r, c)
  {
    var cs := ColsInRow(group, r);
    ColsInRowMembers(group, r);
    if HasValueRun(cs, 3) {
      var x :| ValueRunFrom(cs, x, 3);
      assert x in cs && x + 1 in cs && x + 2 in cs;
      assert RowRunAt(group, r, x);
    }
    if exists c :: RowRunAt(group, r, c) {
      var c :| RowRunAt(group, r, c);
      assert ValueRunFrom(cs, c, 3);
    }
  }

  lemma ColBucketRun(group: seq<Pos>, c: int)
    ensures HasValueRun(RowsInCol(group, c), 3) <==> exists r :: ColRunAt(group, r, c)
  {
    var rs := RowsInCol(group, c);
    RowsInColMembers(group, c);
    if HasValueRun(rs, 3) {
      var x :| ValueRunFrom(rs, x, 3);
      assert x in rs && x + 1 in rs && x + 2 in rs;
      assert ColRunAt(group, x, c);
    }
    if exists r :: ColRunAt(group, r, c) {
      var r :| ColRunAt(group, r, c);
      assert ValueRunFrom(rs, r, 3);
    }
  }

  // ---------------------------------------------------------------- the source's operation

  /** Appending a position appends its column index to its row's bucket only. */
  lemma BucketsSnoc(group: seq<Pos>, p: Pos)
    ensures forall r :: ColsInRow(group + [p], r) == ColsInRow(group, r) + (if p.r == r then [p.c] else [])
    ensures forall c :: RowsInCol(group + [p], c) == RowsInCol(group, c) + (if p.c == c then [p.r] else [])
  {
    assert (group + [p])[..|group|] == group;
  }

  /** `if (!m.has(k)) m.set(k, []); m.get(k).push(v)` */
  function Push(m: map<int, seq<int>>, k: int, v: int): (m': map<int, seq<int>>)
    ensures m'.Keys == m.Keys + {k}
    ensures m'[k] == (if k in m then m[k] else []) + [v]
    ensures forall j :: j in m && j != k ==> m'[j] == m[j]
  {
    var m1 := if k !in m then m[k := []] else m;
    m1[k := m1[k] + [v]]
  }

  /** `m` buckets the column indices of `group` by row, and `keys` lists its keys. */
  ghost predicate RowBuckets(group: seq<Pos>, m: map<int, seq<int>>, keys: seq<int>)
  {
    (forall r :: (r in m ==> m[r] == ColsInRow(group, r)) && (r !in m ==> ColsInRow(group, r) == [])) &&
    (forall k :: k in m <==> k in keys)
  }

  /** `m` buckets the row indices of `group` by column, and `keys` lists its keys. */
  ghost predicate ColBuckets(group: seq<Pos>, m: map<int, seq<int>>, keys: seq<int>)
  {
    (forall c :: (c in m ==> m[c] == RowsInCol(group, c)) && (c !in m ==> RowsInCol(group, c) == [])) &&
    (forall k :: k in m <==> k in keys)
  }

  /** `Push` that also records a key the first time it is seen. */
  function PushKey(m: map<int, seq<int>>, keys: seq<int>, k: int, v: int): (map<int, seq<int>>, seq<int>)
  {
    (Push(m, k, v), if k in m then keys else keys + [k])
  }

  lemma RowBucketsSnoc(group: seq<Pos>, p: Pos, m: map<int, seq<int>>, keys: seq<int>)
    requires RowBuckets(group, m, keys)
    ensures RowBuckets(group + [p], PushKey(m, keys, p.r, p.c).0, PushKey(m, keys, p.r, p.c).1)
  {
    BucketsSnoc(group, p);
  }

  lemma ColBucketsSnoc(group: seq<Pos>, p: Pos, m: map<int, seq<int>>, keys: seq<int>)
    requires ColBuckets(group, m, keys)
    ensures ColBuckets(group + [p], PushKey(m, keys, p.c, p.r).0, PushKey(m, keys, p.c, p.r).1)
  {
    BucketsSnoc(group, p);
  }

  lemma NoBuckets(group: seq<Pos>)
    ensures RowBuckets(group[..0], map[], []) && ColBuckets(group[..0], map[], [])
  {
    assert group[..0] == [];
  }

  /** One turn of the first loop of `isValidGroup`: position `p` goes into its row's and its column's bucket. */
  method BucketOne(prefix: seq<Pos>, p: Pos, rowsMap: map<int, seq<int>>, rowKeys: seq<int>, colsMap: map<int, seq<int>>, colKeys: seq<int>)
    returns (rowsMap': map<int, seq<int>>, rowKeys': seq<int>, colsMap': map<int, seq<int>>, colKeys': seq<int>)
    requires RowBuckets(prefix, rowsMap, rowKeys) && ColBuckets(prefix, colsMap, colKeys)
    ensures RowBuckets(prefix + [p], rowsMap', rowKeys') && ColBuckets(prefix + [p], colsMap', colKeys')
  {
    RowBucketsSnoc(prefix, p, rowsMap, rowKeys);
    ColBucketsSnoc(prefix, p, colsMap, colKeys);
    rowsMap', rowKeys' := PushKey(rowsMap, rowKeys, p.r, p.c).0, PushKey(rowsMap, rowKeys, p.r, p.c).1;
    colsMap', colKeys' := PushKey(colsMap, colKeys, p.c, p.r).0, PushKey(colsMap, colKeys, p.c, p.r).1;
  }

  /**
   * The first loop of `isValidGroup`: bucket the column indices by row and the
   * row indices by column. A `Map` iterates in insertion order, so the keys are
   * also listed in the order they were first seen.
   */
  method Bucket(group: seq<Pos>) returns (rowsMap: map<int, seq<int>>, rowKeys: seq<int>, colsMap: map<int, seq<int>>, colKeys: seq<int>)
    ensures RowBuckets(group, rowsMap, rowKeys)
    ensures ColBuckets(group, colsMap, colKeys)
  {
    rowsMap, colsMap := map[], map[];
    rowKeys, colKeys := [], [];
    NoBuckets(group);
    for i := 0 to |group|
      invariant RowBuckets(group[..i], rowsMap, rowKeys)
      invariant ColBuckets(group[..i], colsMap, colKeys)
    {
      assert group[..i + 1] == group[..i] + [group[i]];
      rowsMap, rowKeys, colsMap, colKeys := BucketOne(group[..i], group[i], rowsMap, rowKeys, colsMap, colKeys);
    }
    assert group[..|group|] == group;
  }

  /**
   * The second and third loops of `isValidGroup`: ask `hasConsecutive(_, 3)` of
   * every bucket, in key order, stopping at the first that says yes.
   */
  method SomeBucketHasRun(buckets: map<int, seq<int>>, keys: seq<int>) returns (found: bool)
    requires forall k :: k in buckets <==> k in keys
    ensures found ==> exists k :: k in buckets && HasValueRun(buckets[k], 3)
    ensures (exists k :: k in buckets && Distinct(buckets[k]) && HasValueRun(buckets[k], 3)) ==> found
  {
    for i := 0 to |keys|
      invariant forall t :: 0 <= t < i ==> keys[t] in buckets && !(Distinct(buckets[keys[t]]) && HasValueRun(buckets[keys[t]], 3))
    {
      var key := keys[i];
      assert key in keys;
      var bucket := buckets[key];
      var arr := new int[|bucket|](j requires 0 <= j < |bucket| => bucket[j]);
      assert arr[..] == bucket;
      found := HasConsecutive(arr, 3);
      if found {
        return;
      }
    }
    found := false;
    forall k | k in buckets
      ensures !(Distinct(buckets[k]) && HasValueRun(buckets[k], 3))
    {
      assert k in keys;
      var t :| 0 <= t < |keys| && keys[t] == k;
    }
  }

  /**
   * `isValidGroup(group)`. Whatever the group, a `true` answer means it holds a
   * straight line of three; for a group without repeated positions (every group
   * the flood fill builds) the answer is exactly whether it holds one.
   */
  method IsValidGroup(group: seq<Pos>) returns (valid: bool)
    ensures valid ==> HasRun(group)
    ensures Distinct(group) && HasRun(group) ==> valid
  {
    var rowsMap, rowKeys, colsMap, colKeys := Bucket(group);
    if Distinct(group) && HasRun(group) {
      ghost var r, c :| RowRunAt(group, r, c) || ColRunAt(group, r, c);
      if RowRunAt(group, r, c) {
        RowBucketRun(group, r);
        ColsInRowDistinct(group, r);
        ColsInRowMembers(group, r);
        assert r in rowsMap && Distinct(rowsMap[r]) && HasValueRun(rowsMap[r], 3);
      } else {
        ColBucketRun(group, c);
        RowsInColDistinct(group, c);
        RowsInColMembers(group, c);
        assert c in colsMap && Distinct(colsMap[c]) && HasValueRun(colsMap[c], 3);
      }
    }
    valid := SomeBucketHasRun(rowsMap, rowKeys);
    if valid {
      ghost var r :| r in rowsMap && HasValueRun(rowsMap[r], 3);
      RowBucketRun(group, r);
      return;
    }
    valid := SomeBucketHasRun(colsMap, colKeys);
    if valid {
      ghost var c :| c in colsMap && HasValueRun(colsMap[c], 3);
      ColBucketRun(group, c);
      return;
    }
  }
}
