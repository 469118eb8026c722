/** The global win condition: every cell except the centre passes the
    per-tile rule, the rotations being read from a flat row-major array. */
module Victory {
  import opened Tables
  import opened Matching

  /** One tile of the grid: its rotation in [0, 360), the ever-growing
      angle used only to draw it, and its pattern at rotation 0. */
  datatype Tile = Tile(rotation: int, visualRotation: int, pattern: Pattern)

  predicate WellShaped(grid: seq<seq<Tile>>) {
    |grid| == GridSize && forall row :: 0 <= row < GridSize ==> |grid[row]| == GridSize
  }

  /** Every tile carries the pattern the static table gives its cell. */
  ghost predicate PatternsFromTable(grid: seq<seq<Tile>>)
    requires WellShaped(grid)
  {
    forall row, col :: InGrid(row, col) ==> grid[row][col].pattern == TilePattern(row, col)
  }

  predicate CellMatches(grid: seq<seq<Tile>>, rotations: seq<int>, row: int, col: int)
    requires WellShaped(grid) && |rotations| == CellCount && InGrid(row, col)
  {
    CheckTileMatch(grid[row][col].pattern, TilePattern(row, col), rotations[CellIndex(row, col)])
  }

  /** The puzzle is solved: every cell other than the centre matches. */
  ghost predicate Solved(grid: seq<seq<Tile>>, rotations: seq<int>)
    requires WellShaped(grid) && |rotations| == CellCount
  {
    forall row, col :: InGrid(row, col) && !IsCenterTile(row, col) ==> CellMatches(grid, rotations, row, col)
  }

  /** `checkVictory`: the row-by-row scan that skips the centre and stops at
      the first cell that does not match. */
  method CheckVictory(grid: seq<seq<Tile>>, rotations: array<int>) returns (victory: bool)
    requires WellShaped(grid) && rotations.Length == CellCount
    ensures victory <==> Solved(grid, rotations[..])
  {
    ghost var rots := rotations[..];
    var row := 0;
    while row < GridSize
      invariant 0 <= row <= GridSize
      invariant forall r, c :: 0 <= r < row && 0 <= c < GridSize && !IsCenterTile(r, c) ==> CellMatches(grid, rots, r, c)
    {
      var col := 0;
      while col < GridSize
        invariant 0 <= col <= GridSize
        invariant forall r, c :: 0 <= r < row && 0 <= c < GridSize && !IsCenterTile(r, c) ==> CellMatches(grid, rots, r, c)
        invariant forall c :: 0 <= c < col && !IsCenterTile(row, c) ==> CellMatches(grid, rots, row, c)
      {
        if IsCenterTile(row, col) {
          col := col + 1;
          continue;
        }
        var tile := grid[row][col];
        var expectedPattern := TilePattern(row, col);
        var rotation := rotations[row * GridSize + col];
        assert tile == grid[row][col] && rotation == rots[CellIndex(row, col)];
        var matches := CheckTileMatch(tile.pattern, expectedPattern, rotation);
        assert matches == CellMatches(grid, rots, row, col);
        if !matches {
          return false;
        }
        col := col + 1;
      }
      assert forall c :: 0 <= c < GridSize && !IsCenterTile(row, c) ==> CellMatches(grid, rots, row, c);
      row := row + 1;
    }
    return true;
  }

  /** The centre's rotation, at index 12, is never consulted. */
  lemma SolvedIgnoresCenter(grid: seq<seq<Tile>>, rotations: seq<int>, v: int)
    requires WellShaped(grid) && |rotations| == CellCount
    ensures Solved(grid, rotations) <==> Solved(grid, rotations[CellIndex(2, 2) := v])
  {
  }

  /** On the table's patterns the board is solved exactly when every tile,
      the centre included, looks on screen as it is printed. */
  lemma SolvedIffLooksUnrotated(grid: seq<seq<Tile>>, rotations: seq<int>)
    requires WellShaped(grid) && |rotations| == CellCount && PatternsFromTable(grid)
    ensures Solved(grid, rotations) <==>
              forall row, col :: InGrid(row, col) ==> LooksUnrotated(TilePattern(row, col), rotations[CellIndex(row, col)])
  {
    forall row, col | InGrid(row, col)
      ensures IsCenterTile(row, col) ==> LooksUnrotated(TilePattern(row, col), rotations[CellIndex(row, col)])
      ensures !IsCenterTile(row, col) ==>
                (CellMatches(grid, rotations, row, col) <==>
                 LooksUnrotated(TilePattern(row, col), rotations[CellIndex(row, col)]))
    {
      TableMatchIsVisual(row, col, rotations[CellIndex(row, col)]);
      TableCellKinds(row, col);
      if IsCenterTile(row, col) {
        AllBlackIgnoresRotation(TilePattern(row, col), TilePattern(row, col), rotations[CellIndex(row, col)]);
      }
    }
  }

  /** On the table's patterns the board is solved exactly when every tile
      other than the centre is at a multiple of 360, or at 180 plus a
      multiple of 360 for the two dual tiles (1,3) and (3,1). */
  lemma SolvedIffHome(grid: seq<seq<Tile>>, rotations: seq<int>)
    requires WellShaped(grid) && |rotations| == CellCount && PatternsFromTable(grid)
    ensures Solved(grid, rotations) <==>
              forall row, col :: InGrid(row, col) && !IsCenterTile(row, col) ==>
                (Quarter(rotations[CellIndex(row, col)]) == 0 ||
                 (Quarter(rotations[CellIndex(row, col)]) == 2 && ((row == 1 && col == 3) || (row == 3 && col == 1))))
  {
    forall row, col | InGrid(row, col) && !IsCenterTile(row, col)
      ensures CellMatches(grid, rotations, row, col) <==>
                (Quarter(rotations[CellIndex(row, col)]) == 0 ||
                 (Quarter(rotations[CellIndex(row, col)]) == 2 && ((row == 1 && col == 3) || (row == 3 && col == 1))))
    {
      TableMatchOrientations(row, col, rotations[CellIndex(row, col)]);
    }
  }

  /** With all 25 rotations at 0 the table is solved. */
  lemma AllZeroSolved(grid: seq<seq<Tile>>)
    requires WellShaped(grid) && PatternsFromTable(grid)
    ensures Solved(grid, seq(CellCount, i => 0))
  {
    var zeros := seq(CellCount, i => 0);
    forall row, col | InGrid(row, col) && !IsCenterTile(row, col)
      ensures CellMatches(grid, zeros, row, col)
    {
      MatchAtZero(TilePattern(row, col));
    }
  }
}
