/** The static data of the 5x5 rotating-tile puzzle: the colour of every
    quadrant of every tile at rotation 0, the two tiles with two valid
    orientations, the centre tile, and the cells that carry a piece of the
    decorative victory overlay. */
module Tables {

  datatype Option<T> = None | Some(value: T)

  /** The colour of one quadrant: the empty marker `""` or one of the two inks. */
  datatype Color = Empty | Blue | Black

  /** Quadrant colours in the order top-left, top-right, bottom-left, bottom-right. */
  type Pattern = p: seq<Color> | |p| == 4 witness [Empty, Empty, Empty, Empty]

  const GridSize: int := 5
  const CellCount: int := 25

  /** Every tile's pattern at rotation 0, row by row. */
  const TilePatterns: seq<seq<Pattern>> := [
    [[Empty, Empty, Empty, Blue], [Empty, Empty, Blue, Black], [Empty, Empty, Black, Blue], [Empty, Empty, Blue, Black], [Empty, Empty, Black, Empty]],
    [[Empty, Blue, Empty, Black], [Blue, Black, Black, Black], [Black, Blue, Black, Black], [Blue, Black, Black, Blue], [Black, Empty, Blue, Empty]],
    [[Empty, Black, Empty, Blue], [Black, Black, Blue, Black], [Black, Black, Black, Black], [Black, Blue, Black, Black], [Blue, Empty, Black, Empty]],
    [[Empty, Blue, Empty, Black], [Blue, Black, Black, Blue], [Black, Black, Blue, Black], [Black, Black, Black, Blue], [Black, Empty, Blue, Empty]],
    [[Empty, Black, Empty, Empty], [Black, Blue, Empty, Empty], [Blue, Black, Empty, Empty], [Black, Blue, Empty, Empty], [Blue, Empty, Empty, Empty]]
  ]

  predicate InGrid(row: int, col: int) {
    0 <= row < GridSize && 0 <= col < GridSize
  }

  function TilePattern(row: int, col: int): Pattern
    requires InGrid(row, col)
  {
    TilePatterns[row][col]
  }

  /** Position of cell (row, col) in the flat, row-major rotation array. */
  function CellIndex(row: int, col: int): (i: int)
    requires InGrid(row, col)
    ensures 0 <= i < CellCount
    ensures i / GridSize == row && i % GridSize == col
  {
    row * GridSize + col
  }

  /** An entry of the list of tiles that are solved at two orientations. */
  datatype DualTile = DualTile(row: int, col: int, pattern: Pattern)

  const DualTiles: seq<DualTile> := [
    DualTile(1, 3, [Blue, Black, Black, Blue]),
    DualTile(3, 1, [Blue, Black, Black, Blue])
  ]

  /** Whether some entry of the dual-tile list carries pattern `p`; the
      coordinates of the entries are never consulted. */
  predicate IsDualPattern(p: seq<Color>) {
    exists i :: 0 <= i < |DualTiles| && DualTiles[i].pattern == p
  }

  predicate IsCenterTile(row: int, col: int) {
    row == 2 && col == 2
  }

  predicate AllBlack(p: seq<Color>) {
    forall i :: 0 <= i < |p| ==> p[i] == Black
  }

  /** Both entries of the dual-tile list hold the same pattern, so the
      content test is plain equality with it. */
  lemma DualPatternIsUnique(p: seq<Color>)
    ensures IsDualPattern(p) <==> p == [Blue, Black, Black, Blue]
  {
    if p == [Blue, Black, Black, Blue] {
      assert DualTiles[0].pattern == p;
    }
  }

  /** The dual-tile list agrees with the pattern table at its coordinates. */
  lemma DualTilesAgreeWithTable(i: int)
    requires 0 <= i < |DualTiles|
    ensures InGrid(DualTiles[i].row, DualTiles[i].col)
    ensures TilePattern(DualTiles[i].row, DualTiles[i].col) == DualTiles[i].pattern
  {
  }

  /** The pattern is invariant under the geometric half turn, which swaps
      top-left with bottom-right and top-right with bottom-left. */
  predicate HalfTurnSymmetric(p: Pattern) {
    p[0] == p[3] && p[1] == p[2]
  }

  /** The pattern is invariant under a cyclic shift of its four entries by two. */
  predicate ShiftByTwoSymmetric(p: Pattern) {
    p[0] == p[2] && p[1] == p[3]
  }

  /** What each cell of the table is: the content-based dual test picks out
      exactly (1,3) and (3,1), only the centre is all BLACK, and no other
      cell has either kind of two-fold symmetry. */
  lemma {:induction false} TableCellKinds(row: int, col: int)
    requires InGrid(row, col)
    ensures IsDualPattern(TilePattern(row, col)) <==> (row == 1 && col == 3) || (row == 3 && col == 1)
    ensures AllBlack(TilePattern(row, col)) <==> IsCenterTile(row, col)
    ensures HalfTurnSymmetric(TilePattern(row, col)) <==>
              IsDualPattern(TilePattern(row, col)) || IsCenterTile(row, col)
    ensures ShiftByTwoSymmetric(TilePattern(row, col)) <==> IsCenterTile(row, col)
  {
    var p := TilePattern(row, col);
    DualPatternIsUnique(p);
    if IsCenterTile(row, col) {
      assert p == [Black, Black, Black, Black];
    } else {
      assert p[0] != Black || p[1] != Black || p[2] != Black || p[3] != Black by {
        assert row == 0 || row == 1 || row == 2 || row == 3 || row == 4;
        assert col == 0 || col == 1 || col == 2 || col == 3 || col == 4;
      }
    }
  }

  /** The seven pieces of the decorative arc drawn once the puzzle is solved. */
  datatype Overlay = Center | TopCenter | LeftCenter | RightCenter | BottomCenter | InnerLeft | BottomRight

  /** The overlay piece drawn on cell (row, col) once solved, if any. */
  function GetVictoryPattern(row: int, col: int): (r: Option<Overlay>)
    ensures r.Some? ==> InGrid(row, col)
    ensures r == Some(Center) <==> IsCenterTile(row, col)
  {
    if row == 2 && col == 2 then Some(Center)
    else if row == 1 && col == 2 then Some(TopCenter)
    else if row == 2 && col == 1 then Some(LeftCenter)
    else if row == 2 && col == 3 then Some(RightCenter)
    else if row == 3 && col == 2 then Some(BottomCenter)
    else if row == 1 && col == 1 then Some(InnerLeft)
    else if row == 3 && col == 3 then Some(BottomRight)
    else None
  }

  /** The overlay covers the centre, its four orthogonal neighbours and the
      two inner cells on the main diagonal, and nothing else. */
  lemma OverlayCells(row: int, col: int)
    ensures GetVictoryPattern(row, col).Some? <==>
              (row == 2 && 1 <= col <= 3) || (col == 2 && 1 <= row <= 3) || (row == col && (row == 1 || row == 3))
  {
  }

  /** Each overlay piece belongs to one cell. */
  lemma OverlayInjective(r1: int, c1: int, r2: int, c2: int)
    requires GetVictoryPattern(r1, c1).Some?
    requires GetVictoryPattern(r1, c1) == GetVictoryPattern(r2, c2)
    ensures r1 == r2 && c1 == c2
  {
  }

  /** Exactly seven cells of the grid carry an overlay piece. */
  lemma OverlayCellCount()
    ensures |set row, col | 0 <= row < GridSize && 0 <= col < GridSize && GetVictoryPattern(row, col).Some? :: (row, col)| == 7
  {
    var s := set row, col | 0 <= row < GridSize && 0 <= col < GridSize && GetVictoryPattern(row, col).Some? :: (row, col);
    assert s == {(2, 2), (1, 2), (2, 1), (2, 3), (3, 2), (1, 1), (3, 3)};
  }
}
