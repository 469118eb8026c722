/** The per-tile win rule: rotating a pattern, comparing patterns, and the
    three-branch match test, together with an independent geometric
    reference for what "this tile looks as printed" means. */
module Matching {
  import opened Tables

  /** Number of quarter steps the rotation stands for. The source computes
      `Math.floor(rotation / 90) % 4` and slices with it; for a negative
      rotation its truncating `%` gives a negative index, which `slice`
      counts from the end of the 4-element pattern. Both together are the
      Euclidean remainder used here, so every integer rotation is covered. */
  function Quarter(rotation: int): (k: int)
    ensures 0 <= k < 4
  {
    (rotation / 90) % 4
  }

  /** The pattern shifted cyclically to the left by `Quarter(rotation)` places. */
  function RotatePattern(p: Pattern, rotation: int): (r: Pattern)
    ensures forall i :: 0 <= i < 4 ==> r[i] == p[(i + Quarter(rotation)) % 4]
  {
    var k := Quarter(rotation);
    p[k..] + p[..k]
  }

  /** The four possible results of a rotation, written out. */
  lemma RotateCases(p: Pattern, rotation: int)
    ensures Quarter(rotation) == 0 ==> RotatePattern(p, rotation) == p
    ensures Quarter(rotation) == 1 ==> RotatePattern(p, rotation) == [p[1], p[2], p[3], p[0]]
    ensures Quarter(rotation) == 2 ==> RotatePattern(p, rotation) == [p[2], p[3], p[0], p[1]]
    ensures Quarter(rotation) == 3 ==> RotatePattern(p, rotation) == [p[3], p[0], p[1], p[2]]
  {
  }

  /** Rotation 0 and rotation 360 both leave a pattern as it is. */
  lemma RotateFullTurn(p: Pattern)
    ensures RotatePattern(p, 0) == p
    ensures RotatePattern(p, 360) == p
  {
    assert Quarter(0) == 0;
    assert Quarter(360) == 0 by {
      assert 360 / 90 == 4;
    }
    assert p[0..] + p[..0] == p;
  }

  /** Quarter steps add up when the first rotation is a multiple of 90. */
  lemma QuarterAdd(a: int, b: int)
    requires a % 90 == 0
    ensures Quarter(a + b) == (Quarter(a) + Quarter(b)) % 4
  {
    var m, q := a / 90, b / 90;
    assert a == 90 * m;
    assert b == 90 * q + b % 90;
    var s := (a + b) / 90;
    assert a + b == 90 * s + (a + b) % 90;
    assert s == m + q;
    assert m == 4 * (m / 4) + m % 4;
    assert q == 4 * (q / 4) + q % 4;
    assert m + q == 4 * (m / 4 + q / 4) + (m % 4 + q % 4);
  }

  lemma Mod4Small(x: int)
    requires 0 <= x < 8
    ensures x % 4 == if x < 4 then x else x - 4
  {
  }

  /** Shifting twice is shifting once by the sum of the two quarter steps. */
  lemma ShiftCompose(p: Pattern, a: int, b: int, c: int)
    requires Quarter(c) == (Quarter(a) + Quarter(b)) % 4
    ensures RotatePattern(RotatePattern(p, a), b) == RotatePattern(p, c)
  {
    var j, k := Quarter(a), Quarter(b);
    Mod4Small(j + k);
    var q := RotatePattern(p, a);
    var r := RotatePattern(q, b);
    var s := RotatePattern(p, c);
    forall i | 0 <= i < 4 ensures r[i] == s[i] {
      var x := (i + k) % 4;
      Mod4Small(i + k);
      Mod4Small(x + j);
      Mod4Small(i + Quarter(c));
      assert (x + j) % 4 == (i + Quarter(c)) % 4;
      assert r[i] == q[x] == p[(x + j) % 4];
    }
  }

  /** Rotating by a multiple of 90 and then by any amount is rotating once by the sum. */
  lemma RotateCompose(p: Pattern, a: int, b: int)
    requires a % 90 == 0
    ensures RotatePattern(RotatePattern(p, a), b) == RotatePattern(p, a + b)
  {
    QuarterAdd(a, b);
    ShiftCompose(p, a, b, a + b);
  }

  /** Four steps of 90 degrees bring every pattern back. */
  lemma FourQuarterSteps(p: Pattern)
    ensures RotatePattern(RotatePattern(RotatePattern(RotatePattern(p, 90), 90), 90), 90) == p
  {
    RotateCompose(p, 90, 90);
    RotateCompose(p, 180, 90);
    RotateCompose(p, 270, 90);
    RotateFullTurn(p);
  }

  /** Adding a full turn to the rotation changes nothing. */
  lemma RotatePeriodic(p: Pattern, rotation: int)
    ensures RotatePattern(p, rotation + 360) == RotatePattern(p, rotation)
  {
    assert (rotation + 360) / 90 == rotation / 90 + 4;
  }

  /** Element-wise comparison with an early exit, as `arraysEqual` does it. */
  method ArraysEqual<T(==)>(a: seq<T>, b: seq<T>) returns (equal: bool)
    ensures equal <==> |a| == |b| && forall i :: 0 <= i < |a| ==> a[i] == b[i]
    ensures equal <==> a == b
  {
    if |a| != |b| {
      return false;
    }
    var i := 0;
    while i < |a|
      invariant 0 <= i <= |a|
      invariant forall j :: 0 <= j < i ==> a[j] == b[j]
    {
      if a[i] != b[i] {
        return false;
      }
      i := i + 1;
    }
    return true;
  }

  /** The source's win rule for one tile, branch by branch: the dual-tile
      test, then the all-BLACK test (which ignores the rotation), then exact
      equality after rotation. The comparisons done by `arraysEqual` are
      sequence equality, as `ArraysEqual` proves. */
  predicate CheckTileMatch(current: Pattern, expected: Pattern, rotation: int) {
    if IsDualPattern(expected) then
      var rotated := RotatePattern(current, rotation);
      rotated == expected || rotated == RotatePattern(expected, 180)
    else if AllBlack(expected) then
      AllBlack(current)
    else
      RotatePattern(current, rotation) == expected
  }

  /** A tile whose target is all BLACK matches exactly when it is all BLACK,
      whatever its rotation. */
  lemma AllBlackIgnoresRotation(current: Pattern, expected: Pattern, rotation: int)
    requires AllBlack(expected)
    ensures CheckTileMatch(current, expected, rotation) <==> AllBlack(current)
  {
    DualPatternIsUnique(expected);
    assert expected[0] == Black;
  }

  /** At rotation 0 each pattern matches itself, in every branch. */
  lemma MatchAtZero(p: Pattern)
    ensures CheckTileMatch(p, p, 0)
  {
    RotateFullTurn(p);
  }

  /** The dual pattern matches itself at rotations 0 and 180 and at no other. */
  lemma DualTileOrientations(rotation: int)
    ensures CheckTileMatch([Blue, Black, Black, Blue], [Blue, Black, Black, Blue], rotation) <==>
              (Quarter(rotation) == 0 || Quarter(rotation) == 2)
  {
    var p: Pattern := [Blue, Black, Black, Blue];
    DualPatternIsUnique(p);
    var half: Pattern := [Black, Blue, Blue, Black];
    assert Quarter(180) == 2;
    RotateCases(p, 180);
    assert RotatePattern(p, 180) == half;
    RotateCases(p, rotation);
    var k := Quarter(rotation);
    if k == 1 {
      assert RotatePattern(p, rotation)[0] == Black != p[0];
      assert RotatePattern(p, rotation)[3] == Blue != half[3];
    } else if k == 3 {
      assert RotatePattern(p, rotation)[1] == Blue != p[1];
      assert RotatePattern(p, rotation)[0] == Blue != half[0];
    }
  }

  /** Rotation by a quarter step counted clockwise, as a picture turns:
      top-left moves to top-right, top-right to bottom-right, and so on. */
  function QuarterTurn(p: Pattern): Pattern
  {
    [p[2], p[0], p[3], p[1]]
  }

  /** The pattern after `k` clockwise quarter turns. */
  function Turned(p: Pattern, k: nat): Pattern
  {
    if k == 0 then p else QuarterTurn(Turned(p, k - 1))
  }

  /** Four clockwise quarter turns are a full turn. */
  lemma TurnedFullCircle(p: Pattern)
    ensures Turned(p, 4) == p
  {
    assert Turned(p, 1) == [p[2], p[0], p[3], p[1]];
    assert Turned(p, 2) == [p[3], p[2], p[1], p[0]];
    assert Turned(p, 3) == [p[1], p[3], p[0], p[2]];
  }

  /** The tile, turned by `rotation` degrees on screen, shows the same
      picture as at rotation 0. */
  predicate LooksUnrotated(p: Pattern, rotation: int) {
    Turned(p, Quarter(rotation)) == p
  }

  predicate AllSame(p: Pattern) {
    p[0] == p[1] && p[1] == p[2] && p[2] == p[3]
  }

  /** When a cyclic shift leaves a pattern unchanged. */
  lemma ShiftFixpoints(p: Pattern, rotation: int)
    ensures RotatePattern(p, rotation) == p <==>
              Quarter(rotation) == 0 ||
              (Quarter(rotation) == 2 && ShiftByTwoSymmetric(p)) ||
              (Quarter(rotation) % 2 == 1 && AllSame(p))
  {
    RotateCases(p, rotation);
    var k := Quarter(rotation);
    if k == 1 {
      assert RotatePattern(p, rotation) == p <==> AllSame(p);
    } else if k == 3 {
      assert RotatePattern(p, rotation) == p <==> AllSame(p);
    }
  }

  /** When a geometric turn leaves a pattern unchanged. */
  lemma {:induction false} TurnFixpoints(p: Pattern, rotation: int)
    ensures LooksUnrotated(p, rotation) <==>
              Quarter(rotation) == 0 ||
              (Quarter(rotation) == 2 && HalfTurnSymmetric(p)) ||
              (Quarter(rotation) % 2 == 1 && AllSame(p))
  {
    var k := Quarter(rotation);
    assert Turned(p, 0) == p;
    var t1 := Turned(p, 1);
    var t2 := Turned(p, 2);
    var t3 := Turned(p, 3);
    assert t1 == QuarterTurn(p);
    assert t2 == QuarterTurn(t1);
    assert t3 == QuarterTurn(t2);
    assert t2 == [p[3], p[2], p[1], p[0]];
    assert t3 == [p[1], p[3], p[0], p[2]];
  }

  /** For every tile of the table, including the centre, the source's
      self-match at a rotation holds exactly when the tile looks as printed
      at that rotation: the dual-tile exception and the all-BLACK exception
      cover precisely the table's symmetric tiles. */
  lemma TableMatchIsVisual(row: int, col: int, rotation: int)
    requires InGrid(row, col)
    ensures CheckTileMatch(TilePattern(row, col), TilePattern(row, col), rotation) <==>
              LooksUnrotated(TilePattern(row, col), rotation)
  {
    var p := TilePattern(row, col);
    TableCellKinds(row, col);
    TurnFixpoints(p, rotation);
    if IsDualPattern(p) {
      DualPatternIsUnique(p);
      DualTileOrientations(rotation);
    } else if AllBlack(p) {
      AllBlackIgnoresRotation(p, p, rotation);
    } else {
      ShiftFixpoints(p, rotation);
    }
  }

  /** The orientations at which a table tile matches: rotation 0 for every
      tile, 180 as well for the two dual tiles, any rotation for the centre. */
  lemma TableMatchOrientations(row: int, col: int, rotation: int)
    requires InGrid(row, col)
    ensures CheckTileMatch(TilePattern(row, col), TilePattern(row, col), rotation) <==>
              IsCenterTile(row, col) || Quarter(rotation) == 0 ||
              (Quarter(rotation) == 2 && ((row == 1 && col == 3) || (row == 3 && col == 1)))
  {
    var p := TilePattern(row, col);
    TableMatchIsVisual(row, col, rotation);
    TableCellKinds(row, col);
    TurnFixpoints(p, rotation);
  }
}
