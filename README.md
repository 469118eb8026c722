# Rotating-tile puzzle engine, modelled in Dafny

The puzzle is a 5x5 grid of tiles. Every tile has four quadrants
(top-left, top-right, bottom-left, bottom-right) coloured empty, BLUE or
BLACK. Every tile starts at a random multiple of 90 degrees. A click turns
one tile by 90 degrees. The puzzle is solved when every tile except the
centre passes the per-tile match rule. The game state is the grid of
tiles, the flat array of 25 rotations and the victory flag.

The model has four modules:

- `Tables` (`tables.dfy`) holds the static data. It has the pattern table,
  the list of dual tiles, the centre test and the victory-overlay lookup.
  The overlay pieces are an enum.
- `Matching` (`matching.dfy`) holds `rotatePattern`, written as a cyclic
  left shift by `Quarter(rotation)` places. It also holds `arraysEqual`, a
  method with the source's early-exit loop, and the three-branch
  `checkTileMatch`. As an independent reference it defines a geometric
  clockwise quarter turn (`QuarterTurn`, `Turned`, `LooksUnrotated`), which
  describes what the screen shows when a tile is turned.
- `Victory` (`victory.dfy`) holds `checkVictory` as a method with nested
  loops and early exits. It is proved equal to the predicate `Solved`.
  Lemmas about `Solved` follow it.
- `Engine` (`engine.dfy`) holds the class `PuzzleEngine`. Its fields are
  `grid`, `totalRotations: array<int>` and `isVictory`. Its methods are
  `CreateGrid` and `RotateTile`, and its object invariant is `Valid()`.

Main results:

- For every cell of the table, `checkTileMatch(p, p, r)` holds exactly when
  the tile, turned by `r` degrees on screen, looks the same as at rotation
  0 (`TableMatchIsVisual`). This holds even though `rotatePattern` is a
  cyclic shift in TL, TR, BL, BR order and not a geometric rotation. The
  dual-tile exception and the all-BLACK exception make up exactly the
  difference.
- As a result, the board is solved exactly when every tile looks as
  printed (`SolvedIffLooksUnrotated`). Equivalently, every non-centre tile
  is at 0 mod 360, or at 180 mod 360 for (1,3) and (3,1) (`SolvedIffHome`).

`createGrid` always clears the victory flag, even when the random draws
happen to deal a solved board (`ZeroDealIsSolved`). The flag can then be
down on a solved board. So the object invariant says only that the flag is
never up on an unsolved board. The next click recomputes the flag. A click
on the centre of such a board raises it, because the centre is never
inspected (`SolvedAfterClick`).

The second exception of the match rule (src/App.js:104-106) tests
`=== BLACK` and ignores the rotation. On the table only the centre is all
BLACK (`TableCellKinds`), and `checkVictory` skips the centre, so the scan
never takes this branch.

## Model

| member | source | states |
|---|---|---|
| `Tables.TilePatterns` | src/App.js:9-15 | the 5x5 table of quadrant colours at rotation 0, entry by entry as in the source; its properties are stated by `TableCellKinds` |
| `Tables.DualTiles` | src/App.js:58-61 | the two-entry list of dual tiles at (1,3) and (3,1), both with [BLUE, BLACK, BLACK, BLUE]; its properties are stated by `DualPatternIsUnique` and `DualTilesAgreeWithTable` |
| `Tables.IsCenterTile` | src/App.js:63 | holds exactly at row 2, column 2 |
| `Tables.GetVictoryPattern` | src/App.js:65-74 | the if-chain that gives each of the seven overlay cells its piece and every other cell none; a piece is only ever given to an in-grid cell, and the centre piece exactly to the centre |
| `Tables.CellIndex` | src/App.js:117 | the flat index `row*5+col` of an in-grid cell lies in [0,25), and dividing it by 5 gives back the row and the column |
| `Tables.DualPatternIsUnique` | src/App.js:58-61 | a pattern passes the dual-tile list test exactly when it is [BLUE, BLACK, BLACK, BLUE] |
| `Tables.DualTilesAgreeWithTable` | src/App.js:58-61 | each entry of the dual-tile list names an in-grid cell whose table pattern is the entry's pattern |
| `Tables.TableCellKinds` | src/App.js:9-15 | on the table, the content-based dual test picks out exactly (1,3) and (3,1); only the centre is all BLACK; the tiles that look the same after a half turn are exactly the dual tiles and the centre; only the centre is unchanged by a shift of two places |
| `Tables.OverlayCells` | src/App.js:65-74 | the overlay lookup is non-empty exactly at the centre, its four orthogonal neighbours, (1,1) and (3,3) |
| `Tables.OverlayInjective` | src/App.js:65-74 | two cells with the same overlay piece are the same cell |
| `Tables.OverlayCellCount` | src/App.js:65-74 | exactly seven cells of the grid carry an overlay piece |
| `Matching.Quarter` | src/App.js:84 | the shift amount is in [0,4) for every integer rotation |
| `Matching.RotatePattern` | src/App.js:83-86 | the result is the 4-element pattern shifted left by `Quarter(rotation)` places: entry i is entry (i+k) mod 4 of the input |
| `Matching.RotateFullTurn` | src/App.js:83-86 | rotations 0 and 360 leave every pattern unchanged |
| `Matching.QuarterAdd` | src/App.js:84 | when the first rotation is a multiple of 90, the quarter steps of a sum are the sum of the quarter steps mod 4 |
| `Matching.ShiftCompose` | src/App.js:83-86 | shifting twice equals one shift whose quarter step is the sum of the two mod 4 |
| `Matching.RotateCompose` | src/App.js:83-86 | rotating by a multiple of 90 and then by b is the same as rotating once by their sum |
| `Matching.FourQuarterSteps` | src/App.js:83-86 | rotating by 90 four times gives back the original pattern |
| `Matching.RotatePeriodic` | src/App.js:83-86 | adding 360 to the rotation gives the same result |
| `Matching.ArraysEqual` | src/App.js:88-94 | the early-exit loop returns true exactly when the lengths agree and every index holds equal values, that is, exactly when the sequences are equal |
| `Matching.CheckTileMatch` | src/App.js:96-109 | the match rule as its three branches in source order: for a target on the dual-tile list, the rotated tile equals the target or the target rotated by 180; otherwise for an all-BLACK target, the tile is all BLACK; otherwise the rotated tile equals the target; its properties are stated by the lemmas below |
| `Matching.AllBlackIgnoresRotation` | src/App.js:104-106 | when the expected pattern is all BLACK, the match holds exactly when the current pattern is all BLACK, at every rotation |
| `Matching.MatchAtZero` | src/App.js:96-109 | at rotation 0 every pattern matches itself, in all three branches |
| `Matching.DualTileOrientations` | src/App.js:96-102 | [BLUE, BLACK, BLACK, BLUE] matches itself exactly at quarter steps 0 and 2, so at 0 and 180 and not at 90 or 270 |
| `Matching.QuarterTurn` | src/App.js:205-219 | (reference) a clockwise screen turn moves top-left to top-right, top-right to bottom-right, bottom-right to bottom-left and bottom-left to top-left |
| `Matching.TurnedFullCircle` | src/App.js:205-219 | (reference) four clockwise screen turns bring every tile back to how it was drawn |
| `Matching.ShiftFixpoints` | src/App.js:83-86 | a shift always leaves a pattern unchanged at step 0; at step 2 it does so exactly when the pattern is two-periodic; at steps 1 and 3 exactly when all four quadrants are equal |
| `Matching.TurnFixpoints` | src/App.js:205-219 | (reference) a screen turn always leaves a tile unchanged at step 0; at step 2 it does so exactly when the tile is half-turn symmetric; at steps 1 and 3 exactly when all four quadrants are equal |
| `Matching.TableMatchIsVisual` | src/App.js:96-109 | for every table cell, the self-match at a rotation holds exactly when the tile turned by that rotation looks the same on screen |
| `Matching.TableMatchOrientations` | src/App.js:96-109 | for every table cell, the self-match holds exactly at quarter step 0, also at step 2 for (1,3) and (3,1), and at every step for the centre |
| `Victory.Solved` | src/App.js:111-124 | (specification of `checkVictory`) every in-grid cell other than the centre passes the match rule against its table pattern at the rotation stored at row*5+col |
| `Victory.CheckVictory` | src/App.js:111-124 | the nested scan returns true exactly when every non-centre cell matches its table pattern at the rotation stored at row*5+col, and false as soon as one does not |
| `Victory.SolvedIgnoresCenter` | src/App.js:114 | changing the rotation at index 12 never changes whether the board is solved |
| `Victory.SolvedIffLooksUnrotated` | src/App.js:111-124 | on the table's patterns, the board is solved exactly when every tile, the centre included, looks on screen as printed |
| `Victory.SolvedIffHome` | src/App.js:111-124 | on the table's patterns, the board is solved exactly when every non-centre rotation is 0 mod 360, or 180 mod 360 for (1,3) and (3,1) |
| `Victory.AllZeroSolved` | src/App.js:111-124 | on the table's patterns, all 25 rotations at 0 give a solved board |
| `Engine.InitialGrid` | src/App.js:133-146 | (specification of `createGrid`) the 5x5 grid whose tile at (row, col) has rotation and drawn angle both equal to draw row*5+col times 90, and the table's pattern for that cell |
| `Engine.InitialRotations` | src/App.js:136-137 | (specification of `createGrid`) the 25 rotations, each draw times 90, in row-major order |
| `Engine.InitialDealShape` | src/App.js:130-151 | a deal has 25 rotations, each draw times 90 and so in {0,90,180,270}; every tile carries its table pattern; each tile's rotation and drawn angle equal the array entry |
| `Engine.ZeroDealIsSolved` | src/App.js:130-151 | a deal whose draws are all 0 is a solved board (that `CreateGrid` still clears the flag on it is part of `CreateGrid`'s own contract) |
| `Engine.Advance` | src/App.js:163-164 | (specification of `rotateTile`) the rotation array in which only entry i is replaced, by (old+90) mod 360; its properties are stated by `AdvanceStep` and `AdvanceFourTimes` |
| `Engine.Clicked` | src/App.js:156-167 | (specification of `rotateTile`) the grid in which only the clicked tile changes: it takes the new rotation and its drawn angle grows by 90; the result is still 5x5 |
| `Engine.AdvanceStep` | src/App.js:163-164 | the update at src/App.js:164, as applied by a click that takes effect (one on an unsolved board), keeps every rotation in {0,90,180,270}, moves the clicked entry one quarter step on, and leaves the other 24 entries unchanged |
| `Engine.AdvanceFourTimes` | src/App.js:164 | four applications of the update at src/App.js:164 to one entry restore the rotation array; four clicks on one cell do so only when none of the first three solves the board, because a click on a solved board is ignored (src/App.js:154) |
| `Engine.SolvedAfterClick` | src/App.js:163-169 | on the grid and array a click produces: after a click on a non-centre cell, the board is solved exactly when that cell now matches and every other non-centre cell already matched; a click on the centre never changes whether the board is solved |
| `Engine.ClickKeepsAgreement` | src/App.js:163-167 | after a click every tile still carries its table pattern and the array's rotation, and its drawn angle is still the same rotation mod 360 |
| `Engine.PuzzleEngine.constructor` | src/App.js:126-128 | on mount the state is dealt at once from the draws, with the flag down |
| `Engine.PuzzleEngine.CreateGrid` | src/App.js:130-151 | builds a fresh rotation array equal to the draws times 90, and a grid of tiles whose rotation and drawn angle both equal that value and whose pattern is copied from the table; clears the flag; keeps the invariant |
| `Engine.PuzzleEngine.RotateTile` | src/App.js:153-174 | when solved it changes nothing; otherwise a fresh array replaces the old one, in which only index row*5+col changes, to (old+90) mod 360; the clicked tile takes that rotation and its drawn angle grows by 90; the flag becomes `Solved` of the new board; the invariant is kept |

## Left out

- Rendering is left out: the JSX and CSS class choices (src/App.js:185-252) and the quadrant and overlay SVG path strings (src/App.js:19-55). These are presentation. The overlay pieces are an enum.
- The React state hooks (src/App.js:77-81) become the fields of `PuzzleEngine`, and each `set…` call becomes a plain assignment at the end of its handler; the mount effect (src/App.js:126-128) becomes the constructor. Only the cosmetic effect at src/App.js:175-183 is left out.
- The timer-driven flags `rotatingTile` and `showVictoryPattern` are left out (src/App.js:160-161, 175-183). They are cosmetic animation and do not affect the win check.
- `Math.random` is a foreign call. It becomes a caller-supplied sequence of 25 draws in [0,4), read in row-major order.
- The string `id` of each tile is left out. It is only a rendering key.
- Object aliasing from the shallow row copy at src/App.js:156 is left out. In the source the clicked tile object is shared with the previous grid. The model's grid is a value, so the previous grid is not updated.
- `Matching.Quarter`: does not model non-integer rotations or floating-point division. Rotations are always multiples of 90, so integer division gives the same value.
- `Engine.PuzzleEngine.RotateTile`: requires in-grid coordinates unless the puzzle is solved. With out-of-range coordinates the source throws when it reads the missing tile (src/App.js:157, 166), except in the early return taken once solved.
