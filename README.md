# Match-3 board engine, modelled in Dafny

This project models the engine of a browser match-3 game ("like Tower of
Saviors"). A board of `rows` × `cols` cells holds icons from a fixed set of
six. An icon can also be `null` for a cell that has just been cleared. The
player drags an icon across the board, swapping it with the cells it passes.
The engine then detects matches, clears them, lets the remaining icons fall,
refills the board with random icons, and repeats.

The repository holds two versions of this engine, and both are modelled:

- **script.js** works with free functions over a global `grid`:
  - `swap` exchanges two cells.
  - `detectMatches` flood-fills each same-icon region with an inner `dfs`. It keeps a region of three cells or more when `isValidGroup` finds a run of three in one of its rows or columns (through `hasConsecutive`), then empties every cell of each kept region.
  - `dropGems` and `processChain` finish the cycle.
  - The `mousemove` handler swaps only with the eight surrounding cells.
- **script2.js** puts the same cycle in a `Board` class. Its cells carry an icon and a `visited` flag.
  - `deleteMatch` scans the board row by row. From each unvisited cell it runs a `dfs` that only admits *centres*: cells whose two neighbours along one axis hold the same icon. Each centre brings those two neighbours into the group. The search never steps straight back to the cell it came from (`invertWay`).
  - A `TimeLifeBar` keeps a life gauge and a battle countdown.
  - A `ComboBlock` keeps a counter.

Modules, one per concern:

| module | file | models |
|---|---|---|
| `Symbols` | symbols.dfy | the icon alphabet, `null`, `randomIcon` as an arbitrary choice |
| `Grids` | grids.dfy | a board as a value, lines of three, swapping and clearing as functions |
| `Gravity` | gravity.dfy | `dropGems` (identical in both files) on an `array2` |
| `Consecutive` | consecutive.dfy | `hasConsecutive` with its in-place sort |
| `Groups` | groups.dfy | `isValidGroup` with its row and column maps |
| `Detect` | detect.dfy | `detectMatches` and its flood-fill `dfs` |
| `Engine` | engine.dfy | `swap`, `processChain` and the drag rule of script.js |
| `Directions` | directions.dfy | `srcDIRS` and `invertWay` |
| `CellBoard` | board.dfy | the `Board` class of script2.js |
| `LifeBar` | lifebar.dfy | `TimeLifeBar` |
| `Combo` | combo.dfy | `ComboBlock`'s counter |

A board lives in an `array2<Sym>` that the methods update in place.
`Grids.Snapshot` reads that array as a `seq<seq<Sym>>`, so each method's
contract can relate the new board to the old one through functions such as
`SwapAt`, `ClearAt` and `Dropped`. script2.js keeps one `Cell` object per
position. Here those objects become two parallel arrays, `grid` for the icons
and `visited` for the flags. A cell has only a positional identity and is
never shared.

Notes on the code's behaviour:

- A drag in script.js swaps with a diagonal neighbour too (Chebyshev distance 1, `Engine.IsDragStep`), not only with the four orthogonal neighbours. script2.js's `onMouseEnter` swaps with any cell the pointer enters and has no distance test at all.
- In script2.js the axis pairs that `dfs` adds are not marked visited. The groups of one `deleteMatch` can therefore share cells, so no disjointness is claimed for them. The groups of script.js's `detectMatches` are proved disjoint.
- script2.js's scan tests `!cell.visited && cell`, and a `Cell` object is always truthy. Its search therefore also starts on empty cells, and a line of three `null` cells is collected like any other line (`CellBoard.Board.DeleteMatch` speaks of `HasLine`, not of `HasIconLine`). script.js skips empty cells.
- In script2.js `deleteMatch` leaves every cell visited (proved), and only `processChain` resets the flags afterwards. The full characterisation of `deleteMatch` holds for a scan that starts with no cell visited.

## Model

| member | source | states |
|---|---|---|
| Symbols.RandomIcon | script2.js:48-51 | the symbol drawn is one of the six icons, never `null` |
| Grids.SwapAtExchanges | script.js:87-95 | the swapped board has the two cells exchanged and every other cell unchanged |
| Grids.SwapAtInvolutive | script2.js:110-114 | swapping the same two cells twice gives the board back |
| Grids.SwapAt | script.js:88-90 | the swapped board has the old board's shape |
| Grids.ClearAt | script.js:137-143 | the cleared board has the old board's shape |
| Grids.ClearAtCells | script2.js:152-157 | clearing a set of cells empties exactly the board's cells that are in the set, and leaves every other cell as it was |
| Grids.ClearAtUnion | script.js:137-143 | clearing one set and then another equals clearing their union |
| Gravity.NonNull | script.js:194-200 | the survivors of a column contain no `null` and are no more than the column |
| Gravity.NonNullKeepsIcons | script.js:194-200 | compaction keeps every icon as often as before |
| Gravity.NonNullCount | script.js:201-204 | the number of cells refilled equals the number of `null` cells in the column |
| Gravity.DroppedColumnIsFull | script2.js:209-227 | after a drop the column has no `null` and its bottom part holds the old icons with their counts |
| Gravity.DroppedColumnOfFull | script2.js:209-227 | a column without gaps is left as it is |
| Gravity.DroppedColumnOfEmpty | script2.js:223-226 | a three-cell column that was all `null` is refilled with icons only |
| Gravity.WriteCell | script.js:196 | one write changes one cell of one column, nothing else |
| Gravity.CompactColumn | script.js:193-200 | after the compaction loop, `pointer` is the last row above the survivors, the rows below it hold the column's non-`null` symbols in their original order, and the other columns are unchanged |
| Gravity.RefillColumn | script.js:201-204 | rows `pointer` down to 0 receive icons, and no other cell changes |
| Gravity.DropColumn | script2.js:210-226 | one column ends up dropped and refilled, and the other columns are unchanged |
| Gravity.DroppedIsFull | script.js:191-213 | a dropped and refilled board has no `null` cell |
| Gravity.DropGems | script.js:191-213 | every column of the board ends up dropped and refilled |
| Consecutive.StepRunLen | script.js:175-184 | the running `count` is at least 1 and at most the index + 1; above 1 the entry is one more than the previous |
| Consecutive.StepRunGivesValueRun | script.js:177-184 | a run of positions counted by the loop is a run of values in the list |
| Consecutive.ValueRunGivesStepRun | script.js:174-184 | in a sorted list without repeats, a run of values is found by the counting loop |
| Consecutive.SameValueRuns | script.js:174 | sorting does not change which runs of values the list holds |
| Consecutive.PermutationDistinct | script.js:174 | a permutation of a list without repeats has no repeats |
| Consecutive.SwapDown | script.js:174 | two neighbouring entries are exchanged, nothing else changes, and the contents are a permutation of the old ones |
| Consecutive.SinkInto | script.js:174 | one entry sinks into the sorted prefix, which is then one longer; the contents are a permutation and the entries after it are untouched |
| Consecutive.SortAscending | script.js:174 | the array ends sorted ascending and is a permutation of the input |
| Consecutive.HasConsecutive | script.js:171-187 | false and untouched when the array is shorter than `minLength`, otherwise sorted and a permutation; true exactly when the sorted array has a step run of `max(minLength, 2)`; for lists without repeats, true exactly when `minLength` consecutive values occur |
| Groups.ColsInRowMembers | script.js:151-156 | row `r`'s bucket holds exactly the column indices of the members in row `r` |
| Groups.RowsInColMembers | script.js:151-156 | column `c`'s bucket holds exactly the row indices of the members in column `c` |
| Groups.ColsInRowDistinct | script.js:151-156 | a group without repeats gives buckets without repeats |
| Groups.RowBucketRun | script.js:158-161 | a row bucket holds three consecutive values exactly when the group has three horizontally consecutive cells in that row |
| Groups.ColBucketRun | script.js:163-166 | a column bucket holds three consecutive values exactly when the group has three vertically consecutive cells in that column |
| Groups.Push | script.js:152-155 | `set(k, [])` when missing and then `get(k).push(v)` append `v` to key `k`'s list only |
| Groups.BucketOne | script.js:151-156 | one member goes into its row's and its column's bucket, and both maps bucket the longer prefix |
| Groups.Bucket | script.js:148-156 | both maps bucket the whole group, and their key lists list exactly their keys |
| Groups.SomeBucketHasRun | script.js:159-166 | true only when some bucket has three consecutive values, and true whenever a bucket without repeats has them |
| Groups.IsValidGroup | script.js:147-169 | valid only when the group has three cells in a straight line, and always when a group without repeats has one |
| Detect.Flood | script.js:103-122 | the inner `dfs` pushes exactly the same-icon region reachable from (r, c) through cells unvisited at the call, marks exactly those visited, keeps a list without repeats free of repeats, and pushes (r, c) first when it qualifies |
| Detect.FloodDone | script.js:113-121 | after the four recursive calls the pushed cells are the whole reachable region |
| Detect.NewComponent | script.js:126-129 | a region flooded from an unvisited cell is a whole same-icon region, and it has three cells and a run when a line of three starts in it |
| Detect.ScanCell | script.js:126-132 | one turn of the scan keeps the groups disjoint whole regions with a line, and keeps every line from a visited cell inside them |
| Detect.InBounds | script.js:100-102 | true exactly when (r, c) is a position of the board |
| Detect.FloodFrom | script.js:103-122 | a flood from an unvisited cell holding `icon` pushes that cell first, then exactly the same-icon region reachable from it through cells unvisited at the call, and marks exactly those |
| Detect.FloodMark | script.js:109-110 | the cell is marked visited and pushed |
| Detect.FloodVertical | script.js:114-116 | the calls down and up keep the flood's progress and leave both neighbours visited when they hold the icon |
| Detect.FloodHorizontal | script.js:119-121 | the calls right and left keep the flood's progress and leave both neighbours visited when they hold the icon |
| Detect.FloodNeighbour | script.js:114-121 | one recursive call keeps the flood's progress, never unmarks a cell, and leaves the neighbour visited when it holds the icon |
| Detect.ScanRow | script.js:125-133 | the scan of a row keeps the groups disjoint whole regions with a line, and moves its invariant to the start of the next row |
| Detect.ClearCell | script.js:139 | the board becomes the old board with that cell cleared |
| Detect.ClearGroup | script.js:138-142 | the board becomes the old board with every cell of the group cleared |
| Detect.ClearGroups | script.js:137-143 | the board becomes the old board with every cell of every group cleared |
| Detect.KeptHasLine | script.js:129 | a kept group contains a straight line of three icons of the board |
| Detect.LineMeansKept | script.js:124-145 | a line of three icons on the board means some group was kept |
| Detect.DetectMatches | script.js:97-146 | true exactly when a group was kept, which is exactly when the board had a line of three icons; kept groups are disjoint whole regions with a run; every line of three icons is cleared; the new board is the old one with the kept cells cleared |
| Engine.Swap | script.js:87-95 | the board becomes the old board with the two cells exchanged |
| Engine.ProcessChain | script.js:216-224 | at most `fuel` rounds; the boards between rounds run from the old board to the new one, each round detecting and clearing the kept groups of a board with a line and then dropping and refilling; when it settles, no line of three icons is left; a board without lines is left as it is |
| Engine.ChainStep | script.js:217-222 | one pass: it finds groups exactly when the board has a line of three icons; then the board goes one round on, otherwise it is unchanged |
| Engine.RoundIsFull | script.js:217-222 | after a round the board has no `null` cell |
| Engine.IsDragStep | script.js:241 | the drag test holds exactly for the eight cells around the start |
| Engine.OrthogonalIsDragStep | script.js:241 | every orthogonal neighbour passes the drag test |
| Engine.DiagonalIsDragStep | script.js:241 | a diagonal neighbour passes the drag test, though it is not an orthogonal neighbour |
| Engine.DragStepSymmetric | script.js:241 | the drag test is symmetric |
| Engine.DragOver | script.js:235-250 | a drag step swaps the two cells and moves the selection; any other cell changes nothing |
| Directions.WayIndex | script2.js:10-15 | each source vector has a single 1, at the index it names |
| Directions.InvertWay | script2.js:122-125 | same length; an entry becomes 0 exactly where it was 1, and every entry becomes 0 or 1 |
| Directions.InvertWayInvolutive | script2.js:122-125 | on vectors of zeros and ones, inverting twice is the identity |
| Directions.InvertWayNotInvolutive | script2.js:122-125 | on other entries it is not: `[2]` comes back as `[0]` |
| Directions.InvertWayOneHot | script2.js:122-125 | inverting a source vector closes exactly the side the step came from |
| Directions.BackPointsHome | script2.js:203-206 | the source vector passed with each recursive call names the calling cell |
| Directions.StepsCoverNeighbours | script2.js:203-206 | the four recursive calls reach every orthogonal neighbour |
| CellBoard.AddMatch | script2.js:184-198 | the cells added at a centre are the centre and the neighbours of each matching axis |
| CellBoard.SetAdd | script2.js:185-196 | adding a key already present leaves the set as it is; a new key grows it by one |
| CellBoard.MatchAdds | script2.js:184-198 | the cells added at a centre hold its icon and lie on a line of three |
| CellBoard.ExploredTrans | script2.js:139-142 | two searches one after the other add up to one search |
| CellBoard.ExploredThree | script2.js:180-198 | a search that collected anything collected at least three distinct cells, those of the first centre it marked |
| CellBoard.SweepNotCentre | script2.js:132-136 | the scan never reaches an unvisited centre, because the line through it was seen from its first cell |
| CellBoard.SweepGrow | script2.js:136-142 | a search from an unvisited non-centre cell keeps the scan's invariant |
| CellBoard.SweepSeen | script2.js:133-136 | at a visited cell the scan moves on with its invariant kept |
| CellBoard.SweepComplete | script2.js:132-149 | a scan that started with no cell visited has collected every cell on a line of three |
| CellBoard.LineIffOnLine | script2.js:171-180 | a board has a line of three exactly when some cell lies on one |
| CellBoard.CellsOnLine | script2.js:180-198 | every collected cell lies on a line of three |
| CellBoard.ScanFindings | script2.js:129-149 | groups are found only if the board has a line; after a scan that started with no cell visited, groups are found exactly then, and they cover every cell on a line |
| CellBoard.Board.IsInBounds | script2.js:126-128 | true exactly when (r, c) is a position of the board |
| CellBoard.Board.GetCell | script2.js:106-109 | no cell exactly when (r, c) is off the board; otherwise that cell's icon and flag |
| CellBoard.Board.SetVisited | script2.js:33-35 | sets or clears one flag and leaves the others alone |
| CellBoard.Board.Dfs | script2.js:164-207 | every cell it adds holds `icon` and lies on a line of three, and is one of the centres it marked or an axis pair of one; every cell it marks is a centre holding `icon`, collected with its axis pairs, whose same-icon centre neighbours are all visited; (r, c) is visited afterwards when it is a centre holding `icon`; off the board, at a visited cell, at another symbol or at a non-centre it changes neither `matchedSet` nor any flag |
| CellBoard.Board.Match | script2.js:180-206 | from an unvisited centre (r, c) holding `icon`: (r, c) ends visited; every cell marked is a centre holding `icon`, collected with its axis pairs; every cell added holds `icon`, lies on a line of three and is a marked centre or one of its axis pairs |
| CellBoard.Board.MarkCentre | script2.js:184-198 | (r, c) becomes visited and nothing else does; `matchedSet` gains the centre and the neighbours of each matching axis |
| CellBoard.Board.Next | script2.js:203-206 | each recursive call keeps the search well formed, never unmarks a cell, and leaves the neighbour in that direction searched |
| CellBoard.Board.ScanCell | script2.js:134-147 | one cell of the scan moves its invariant one cell on |
| CellBoard.Board.ScanRow | script2.js:133-148 | the scan of a row moves its invariant to the start of the next row |
| CellBoard.Board.Scan | script2.js:130-149 | every group found has at least three distinct cells of one symbol on lines of three; every cell ends visited; after a start with no cell visited the sweep's invariant holds at the end, from which `CellBoard.SweepComplete` gives every cell on a line collected |
| CellBoard.Board.Axes | script2.js:171-178 | `hasVerticalMatch` and `hasHorizontalMatch` say exactly that the cell is the middle of a vertical or a horizontal line of three |
| CellBoard.Board.Onward | script2.js:200-206 | after the calls allowed by `invertWay`, every same-icon centre next to the cell is visited |
| CellBoard.Board.Spread | script2.js:136-142 | the four calls from a scanned cell search for its icon, and visit the next cell of any line starting there |
| CellBoard.Board.GatherAt | script2.js:134-143 | the scanned cell ends visited; its `matchedSet` holds its icon on lines of three, and when not empty at least three distinct cells; the scan's invariant moves one cell on |
| CellBoard.Board.DeleteMatch | script2.js:129-163 | returns the number of groups; each group has at least three distinct cells, all holding one symbol and lying on lines of three; the board is the old one with every collected cell cleared; every cell ends visited; groups are found only if the board had a line of three; after a start with no cell visited, the cleared cells are exactly the cells on lines of three |
| CellBoard.Board.SwapIcons | script2.js:110-114 | the board becomes the old board with the two icons exchanged |
| CellBoard.Board.ResetVisited | script2.js:115-121 | no cell is visited afterwards |
| CellBoard.Board.DropGems | script2.js:208-235 | every column ends up dropped and refilled |
| CellBoard.Board.ProcessChain | script2.js:236-246 | the flags are all reset afterwards; at most `fuel` rounds; the boards between rounds run from the old board to the new one, each round clearing exactly the cells on lines of three of a board with a line and then dropping and refilling; when it settles the board has no line of three; a board without lines is left as it is |
| CellBoard.Board.ChainStep | script2.js:237-245 | one pass with the flags reset afterwards: it clears something exactly when the board has a line of three; then the board goes one round on, otherwise it is unchanged |
| CellBoard.CellRoundIsFull | script2.js:237-241 | after a round the board has no `null` cell |
| CellBoard.NewIcons | script2.js:52-64 | a new board whose cells all hold icons |
| CellBoard.Board.constructor | script2.js:2-20 | a board of the given shape, every cell an icon, no cell visited, no groups |
| LifeBar.Recovered | script2.js:316-319 | the new life is at most `maxLife` and at most life + amount, and equals one of them |
| LifeBar.Lowered | script2.js:321-324 | the new life is at least 0 and at least life − amount, and equals one of them |
| LifeBar.Ticked | script2.js:306-309 | a tick takes one second off, stopping at 0 |
| LifeBar.LifeStaysInRange | script2.js:316-324 | a gain or a loss that is not negative keeps the life between 0 and `maxLife` |
| LifeBar.NegativeAmountLeavesRange | script2.js:316-324 | a negative amount takes the life out of that range |
| LifeBar.LoweredToDeath | script2.js:321-328 | `detectLife` after `decreaseLife(amount)` holds exactly when the amount is at least the life |
| LifeBar.TicksCountDown | script2.js:304-314 | after n ticks the countdown has lost n seconds, stopping at 0 |
| LifeBar.CountdownLength | script2.js:304-314 | a countdown from `maxTime` reaches 0 exactly from tick `maxTime` on |
| LifeBar.TimeLifeBar.constructor | script2.js:257-271 | both gauges are full and the bar is idle without a timer |
| LifeBar.TimeLifeBar.ChangeMode | script2.js:292-302 | the mode is set, the countdown runs exactly in battle, and battle refills the time |
| LifeBar.TimeLifeBar.Tick | script2.js:305-313 | a second less; reaching 0 switches to idle and stops the countdown; the gauges stay in range |
| LifeBar.TimeLifeBar.RecoverLife | script2.js:316-319 | the life becomes min(life + amount, maxLife), and the range is kept for amounts that are not negative |
| LifeBar.TimeLifeBar.DecreaseLife | script2.js:321-324 | the life becomes max(life − amount, 0); it is used up exactly when the amount was at least the life |
| LifeBar.TimeLifeBar.DetectLife | script2.js:326-328 | true exactly when the life is used up, that is 0 in a valid bar |
| Combo.ComboBlock.constructor | script2.js:331-342 | the count starts at 0 |
| Combo.ComboBlock.IncreaseCombo | script2.js:349-351 | the count grows by `variable` |
| Combo.ComboBlock.RestCombo | script2.js:352-354 | the count is 0 |

## Left out

- DOM work is presentation and has no effect on the board's state: cell elements, `textContent`, `classList` (including the "clearing" class that both `dropGems` remove), `createElement`, event registration, `dispatchEvent`, `stopDrag`, `setupDragHandlers`, and the mouse handlers apart from the drag rule at script.js:241.
- script2.js's `onMouseEnter` swaps the held cell with any cell entered, with no distance test. That amounts to `CellBoard.Board.SwapIcons` with no precondition beyond the bounds, and it is not modelled separately.
- Timers are not modelled:
  - `setTimeout`, `setInterval` and the `await` pauses are left out, and only the order of the phases is kept.
  - The interval of `startCountdown` becomes a `Tick` method that the caller invokes once per second.
  - `clearInterval` becomes the `ticking` flag.
- `Math.random` becomes an arbitrary choice from the six icons (`Symbols.RandomIcon`), so nothing is claimed about which icon a refill picks.
- `console.log` calls are left out.
- `TimeLifeBar.updateUI` is left out: it computes floating-point percentages and CSS colours. So are `setBoard`, the board reference, the call to `stopDrag` at the end of a countdown, and script.js's `updateTimerBarColor`, `resetTimer` and `runTimer`.
- `ComboBlock`'s `show`, `update` and `draw` are left out (text, position, float opacity and canvas drawing). So are its fields other than `currentCombo`.
- The `Board` and `Cell` classes at script.js:13-59 are never instantiated and are not modelled. Neither are `createBoard` and `getRC` at script.js:65-85, which build DOM cells and read coordinates back from them.
- The `"r,c"` string keys of `matchedSet` are modelled as `Pos` values. The string encoding and its parsing with `split(",").map(Number)` are not modelled.
- `dfs` in script2.js returns 1, 2 or 3 on its early exits. No caller reads these values, so they are left out.
- `changeMode` accepts any string. Only "idle" and "battle" are modelled (`LifeBar.Mode`), the two values the code passes.
- Engine.ProcessChain: `processChain` re-arms itself through timers with no bound, and the refills are random. The model runs at most `fuel` rounds; when `settled` is false the rounds have run out and the board may still hold a line.
- CellBoard.Board.ProcessChain: same fuel bound as `Engine.ProcessChain`.
- CellBoard.Board.DeleteMatch: its groups are not claimed disjoint. Its "exactly the cells on lines of three" holds only for a scan that starts with no cell visited, which every call from `processChain` does.
- Consecutive.HasConsecutive: the equivalence with "`minLength` consecutive values occur" is stated for lists without repeats and `minLength` ≥ 2. Without those conditions the result is characterised by the sorted array's step runs of length `max(minLength, 2)`.
- Groups.IsValidGroup: "valid whenever the group has a line" is stated for groups without repeated positions, which are the only groups `detectMatches` builds.
- Groups.SomeBucketHasRun: the "true whenever" direction is stated for buckets without repeats.
- LifeBar.TimeLifeBar.RecoverLife: the range 0..maxLife is claimed kept only for non-negative amounts, because a negative amount does leave it (`LifeBar.NegativeAmountLeavesRange`). The same holds for `DecreaseLife`. JavaScript's number semantics are not modelled: `NaN`, fractions and non-numeric amounts.
- JavaScript numbers are modelled as unbounded integers. Board coordinates, counts and gauges never approach 2^53.
