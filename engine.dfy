/** The puzzle's state and its two transitions: dealing a fresh grid from
    random quarter turns, and rotating one tile by 90 degrees. */
module Engine {
  import opened Tables
  import opened Matching
  import opened Victory

  /** A rotation the game stores: a whole number of quarter turns below 360. */
  predicate IsQuarterTurnAngle(rotation: int) {
    rotation == 0 || rotation == 90 || rotation == 180 || rotation == 270
  }

  /** One value of `Math.floor(Math.random() * 4)` per cell, in row-major order. */
  predicate ValidDraws(draws: seq<int>) {
    |draws| == CellCount && forall i :: 0 <= i < |draws| ==> 0 <= draws[i] < 4
  }

  function InitialTile(draws: seq<int>, row: int, col: int): Tile
    requires ValidDraws(draws) && InGrid(row, col)
  {
    var rotation := draws[CellIndex(row, col)] * 90;
    Tile(rotation, rotation, TilePattern(row, col))
  }

  function InitialGrid(draws: seq<int>): (grid: seq<seq<Tile>>)
    requires ValidDraws(draws)
    ensures WellShaped(grid)
  {
    seq(GridSize, row requires 0 <= row < GridSize =>
      seq(GridSize, col requires 0 <= col < GridSize => InitialTile(draws, row, col)))
  }

  function InitialRotations(draws: seq<int>): (r: seq<int>)
    requires ValidDraws(draws)
    ensures |r| == CellCount
  {
    seq(CellCount, i requires 0 <= i < CellCount => draws[i] * 90)
  }

  /** A fresh deal has 25 rotations, each one of 0, 90, 180 and 270, on the table's
      patterns, each tile's drawn angle equal to its rotation. */
  lemma InitialDealShape(draws: seq<int>)
    requires ValidDraws(draws)
    ensures |InitialRotations(draws)| == CellCount
    ensures forall i :: 0 <= i < CellCount ==> IsQuarterTurnAngle(InitialRotations(draws)[i])
    ensures PatternsFromTable(InitialGrid(draws))
    ensures forall row, col :: InGrid(row, col) ==>
              InitialGrid(draws)[row][col].rotation == InitialRotations(draws)[CellIndex(row, col)] &&
              InitialGrid(draws)[row][col].visualRotation == InitialGrid(draws)[row][col].rotation
  {
  }

  /** Draws that are all 0 deal a solved board, on which `CreateGrid`
      still lowers the victory flag. */
  lemma ZeroDealIsSolved(draws: seq<int>)
    requires ValidDraws(draws)
    requires forall i :: 0 <= i < CellCount ==> draws[i] == 0
    ensures Solved(InitialGrid(draws), InitialRotations(draws))
  {
    InitialDealShape(draws);
    assert InitialRotations(draws) == seq(CellCount, i => 0);
    AllZeroSolved(InitialGrid(draws));
  }

  /** The rotation array after one click on the cell at index `i`. */
  function Advance(rotations: seq<int>, i: int): (r: seq<int>)
    requires 0 <= i < |rotations|
    ensures |r| == |rotations|
  {
    rotations[i := (rotations[i] + 90) % 360]
  }

  /** The update a click makes when it takes effect (on an unsolved board)
      keeps every rotation in {0, 90, 180, 270}, advances the clicked entry
      by one quarter step and leaves every other entry alone. */
  lemma AdvanceStep(rotations: seq<int>, i: int)
    requires 0 <= i < |rotations|
    requires forall j :: 0 <= j < |rotations| ==> IsQuarterTurnAngle(rotations[j])
    ensures forall j :: 0 <= j < |rotations| ==> IsQuarterTurnAngle(Advance(rotations, i)[j])
    ensures Quarter(Advance(rotations, i)[i]) == (Quarter(rotations[i]) + 1) % 4
    ensures forall j :: 0 <= j < |rotations| && j != i ==> Advance(rotations, i)[j] == rotations[j]
  {
  }

  /** Four applications of the update to one entry restore the rotation
      array. Four clicks on one cell do so only when none of the first three
      solves the board, since a click on a solved board is ignored. */
  lemma AdvanceFourTimes(rotations: seq<int>, i: int)
    requires 0 <= i < |rotations| && IsQuarterTurnAngle(rotations[i])
    ensures Advance(Advance(Advance(Advance(rotations, i), i), i), i) == rotations
  {
  }

  /** A tile agrees with its cell and with the rotation array: it carries
      the table's pattern, the array's rotation, and a drawn angle that
      shows the same orientation. */
  predicate TileAgrees(tile: Tile, row: int, col: int, rotation: int)
    requires InGrid(row, col)
  {
    tile.pattern == TilePattern(row, col) &&
    tile.rotation == rotation &&
    tile.visualRotation % 360 == rotation
  }

  /** The grid after a click on (row, col): that tile takes the new
      rotation and its drawn angle grows by 90; every other tile is kept. */
  function Clicked(grid: seq<seq<Tile>>, row: int, col: int, rotation: int): (g: seq<seq<Tile>>)
    requires WellShaped(grid) && InGrid(row, col)
    ensures WellShaped(g)
  {
    var tile := grid[row][col];
    grid[row := grid[row][col := tile.(rotation := rotation, visualRotation := tile.visualRotation + 90)]]
  }

  /** After a click on a non-centre cell the board is solved exactly when
      the clicked cell now matches and every other non-centre cell already
      matched; a click on the centre never changes whether it is solved. */
  lemma SolvedAfterClick(grid: seq<seq<Tile>>, rotations: seq<int>, row: int, col: int)
    requires WellShaped(grid) && |rotations| == CellCount && InGrid(row, col)
    ensures IsCenterTile(row, col) ==>
              (Solved(Clicked(grid, row, col, Advance(rotations, CellIndex(row, col))[CellIndex(row, col)]),
                      Advance(rotations, CellIndex(row, col))) <==>
               Solved(grid, rotations))
    ensures !IsCenterTile(row, col) ==>
              (Solved(Clicked(grid, row, col, Advance(rotations, CellIndex(row, col))[CellIndex(row, col)]),
                      Advance(rotations, CellIndex(row, col))) <==>
               CellMatches(grid, Advance(rotations, CellIndex(row, col)), row, col) &&
               forall r, c :: InGrid(r, c) && !IsCenterTile(r, c) && (r, c) != (row, col) ==> CellMatches(grid, rotations, r, c))
  {
    var after := Advance(rotations, CellIndex(row, col));
    var clicked: seq<seq<Tile>> := Clicked(grid, row, col, after[CellIndex(row, col)]);
    assert forall r, c :: InGrid(r, c) ==> clicked[r][c].pattern == grid[r][c].pattern;
    assert forall r, c :: InGrid(r, c) ==> (CellMatches(clicked, after, r, c) <==> CellMatches(grid, after, r, c));
  }

  /** A click keeps the grid and the rotation array in agreement. */
  lemma ClickKeepsAgreement(grid: seq<seq<Tile>>, rotations: seq<int>, row: int, col: int)
    requires WellShaped(grid) && |rotations| == CellCount && InGrid(row, col)
    requires forall i :: 0 <= i < CellCount ==> IsQuarterTurnAngle(rotations[i])
    requires forall r, c :: InGrid(r, c) ==> TileAgrees(grid[r][c], r, c, rotations[CellIndex(r, c)])
    ensures forall r, c :: InGrid(r, c) ==>
              TileAgrees(Clicked(grid, row, col, Advance(rotations, CellIndex(row, col))[CellIndex(row, col)])[r][c],
                         r, c, Advance(rotations, CellIndex(row, col))[CellIndex(r, c)])
  {
  }

  class PuzzleEngine {
    var grid: seq<seq<Tile>>
    var totalRotations: array<int>
    var isVictory: bool

    /** The grid and the flat rotation array describe the same board, and
        the victory flag is never raised on an unsolved board. */
    ghost predicate Valid()
      reads this, totalRotations
    {
      totalRotations.Length == CellCount &&
      (forall i :: 0 <= i < CellCount ==> IsQuarterTurnAngle(totalRotations[i])) &&
      WellShaped(grid) &&
      (forall row, col :: InGrid(row, col) ==>
         TileAgrees(grid[row][col], row, col, totalRotations[CellIndex(row, col)])) &&
      (isVictory ==> Solved(grid, totalRotations[..]))
    }

    /** The component mounts with empty state and deals at once. */
    constructor (draws: seq<int>)
      requires ValidDraws(draws)
      ensures Valid() && fresh(totalRotations)
      ensures grid == InitialGrid(draws) && totalRotations[..] == InitialRotations(draws) && !isVictory
    {
      grid := [];
      totalRotations := new int[0];
      isVictory := false;
      new;
      CreateGrid(draws);
    }

    /** `createGrid`: a new grid and a new rotation array built cell by cell
        from the draws, with the victory flag cleared. */
    method CreateGrid(draws: seq<int>)
      requires ValidDraws(draws)
      modifies this
      ensures Valid() && fresh(totalRotations)
      ensures grid == InitialGrid(draws) && totalRotations[..] == InitialRotations(draws) && !isVictory
    {
      var newGrid: seq<seq<Tile>> := [];
      var newTotalRotations := new int[CellCount];
      var row := 0;
      while row < GridSize
        invariant 0 <= row <= GridSize
        invariant |newGrid| == row
        invariant forall r :: 0 <= r < row ==> newGrid[r] == InitialGrid(draws)[r]
        invariant forall i :: 0 <= i < row * GridSize ==> newTotalRotations[i] == draws[i] * 90
      {
        var rowArr: seq<Tile> := [];
        var col := 0;
        while col < GridSize
          invariant 0 <= col <= GridSize
          invariant |rowArr| == col
          invariant forall c :: 0 <= c < col ==> rowArr[c] == InitialTile(draws, row, c)
          invariant forall i :: 0 <= i < row * GridSize + col ==> newTotalRotations[i] == draws[i] * 90
        {
          var index := row * GridSize + col;
          assert index == CellIndex(row, col) && index + 1 == row * GridSize + (col + 1);
          var initialRotation := draws[index] * 90;
          newTotalRotations[index] := initialRotation;
          var pattern := TilePattern(row, col);
          rowArr := rowArr + [Tile(initialRotation, initialRotation, pattern)];
          col := col + 1;
        }
        assert rowArr == InitialGrid(draws)[row];
        assert row * GridSize + GridSize == (row + 1) * GridSize;
        newGrid := newGrid + [rowArr];
        row := row + 1;
      }
      grid := newGrid;
      totalRotations := newTotalRotations;
      isVictory := false;
      assert grid == InitialGrid(draws);
      assert totalRotations[..] == InitialRotations(draws);
      InitialDealShape(draws);
    }

    /** `rotateTile`: ignored once solved; otherwise the clicked cell turns
        by 90 degrees in a copy of the rotation array, its tile follows, and
        the flag is recomputed on the new board. */
    method RotateTile(row: int, col: int)
      requires Valid()
      requires isVictory || InGrid(row, col)
      modifies this
      ensures Valid()
      ensures old(isVictory) ==> grid == old(grid) && totalRotations == old(totalRotations) && isVictory
      ensures !old(isVictory) ==>
                fresh(totalRotations) &&
                totalRotations[..] == Advance(old(totalRotations[..]), CellIndex(row, col)) &&
                grid == Clicked(old(grid), row, col, totalRotations[CellIndex(row, col)]) &&
                isVictory == Solved(grid, totalRotations[..])
    {
      if isVictory {
        return;
      }
      var newGrid: seq<seq<Tile>> := grid;
      var tile: Tile := newGrid[row][col];
      var index := row * GridSize + col;

      var newTotalRotations := new int[CellCount];
      for i := 0 to CellCount
        modifies newTotalRotations
        invariant forall j :: 0 <= j < i ==> newTotalRotations[j] == totalRotations[j]
      {
        newTotalRotations[i] := totalRotations[i];
      }
      newTotalRotations[index] := (totalRotations[index] + 90) % 360;
      assert newTotalRotations[..] == Advance(totalRotations[..], index);

      var newTile := tile.(visualRotation := tile.visualRotation + 90, rotation := newTotalRotations[index]);
      newGrid := newGrid[row := newGrid[row][col := newTile]];

      assert newGrid == Clicked(grid, row, col, newTotalRotations[index]);

      var victory := CheckVictory(newGrid, newTotalRotations);

      AdvanceStep(totalRotations[..], index);
      ClickKeepsAgreement(grid, totalRotations[..], row, col);

      grid := newGrid;
      totalRotations := newTotalRotations;
      isVictory := victory;
    }
  }
}
