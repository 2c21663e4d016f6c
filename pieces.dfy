/** The seven tetrominoes, the spawn rule of `pickPiece`, and the clockwise
    quarter turn of `rotate`. */
module Pieces {
  import opened Board

  /** The index `pickPiece` draws at random; here it is given by the caller. */
  type ShapeIndex = i: int | 0 <= i < 7

  const SHAPES: seq<Matrix> := [
    [[true, true, true, true]],
    [[true, false, false],
     [true, true, true]],
    [[false, false, true],
     [true, true, true]],
    [[true, true],
     [true, true]],
    [[false, true, true],
     [true, true, false]],
    [[false, true, false],
     [true, true, true]],
    [[true, true, false],
     [false, true, true]]
  ]

  const COLORS: seq<string> := ["#6bdcff", "#7ea0ff", "#ffbf70", "#ffe77f", "#89ea97", "#d1a3ff", "#ffa1b8"]

  /** A rectangular matrix with at least one row (all rows as wide as the first). */
  predicate IsRect(m: Matrix) {
    |m| >= 1 && forall i :: 0 <= i < |m| ==> |m[i]| == |m[0]|
  }

  /** What every matrix the engine holds satisfies: rectangular, at least one
      column, at least one occupied cell. */
  ghost predicate IsShape(m: Matrix) {
    IsRect(m) && |m[0]| >= 1 && HasCell(m)
  }

  /** pickPiece: shape `idx` with its colour, at column floor(COLS / 2) - 2
      and row 0, whatever the width of the shape. */
  function PickPiece(idx: ShapeIndex): (p: Piece)
    ensures IsShape(p.matrix)
    ensures p.x == 3 && p.y == 0
    ensures |p.matrix| <= 2 && |p.matrix[0]| <= 4
  {
    var p := Piece(SHAPES[idx], COLORS[idx], COLS / 2 - 2, 0);
    assert p.matrix[0][|p.matrix[0]| - 1] || p.matrix[1][1];
    p
  }

  /** A freshly picked piece never collides on an empty board, at its spawn
      row or at any row down to ROWS - 2 (no shape is taller than two rows). */
  lemma SpawnFreeOnEmpty(idx: ShapeIndex, k: int)
    requires k <= ROWS - 2
    ensures !Blocked(CreateGrid(), PickPiece(idx).matrix, PickPiece(idx).x, k)
  {
    var p := PickPiece(idx);
    var g := CreateGrid();
    forall y, x | 0 <= y < |p.matrix| && 0 <= x < |p.matrix[y]|
      ensures !CellHits(g, p.matrix, p.x, k, y, x)
    {
      assert |p.matrix[y]| == |p.matrix[0]|;
    }
  }

  // ---------------------------------------------------------------------------
  // rotate

  /** The clockwise quarter turn of an h x w matrix: a w x h matrix whose
      row i, read left to right, is column i of the input read bottom to top. */
  function Rotated(m: Matrix): (r: Matrix)
    requires IsRect(m)
    ensures |r| == |m[0]| && forall i :: 0 <= i < |r| ==> |r[i]| == |m|
  {
    var h, w := |m|, |m[0]|;
    seq(w, i requires 0 <= i < w => seq(h, j requires 0 <= j < h => m[h - 1 - j][i]))
  }

  /** rotate(matrix): fill a w x h matrix of zeros, then copy each input cell
      (y, x) to (x, h - 1 - y). */
  method Rotate(m: Matrix) returns (r: Matrix)
    requires IsRect(m)
    ensures |r| == |m[0]| && forall i :: 0 <= i < |r| ==> |r[i]| == |m|
    ensures r == Rotated(m)
  {
    var h := |m|;
    var w := |m[0]|;
    r := seq(w, _ => seq(h, _ => false));
    for y := 0 to h
      invariant |r| == w && forall i :: 0 <= i < w ==> |r[i]| == h
      invariant forall i, j :: 0 <= i < w && 0 <= j < h ==>
        r[i][j] == if h - 1 - j < y then m[h - 1 - j][i] else false
    {
      for x := 0 to w
        invariant |r| == w && forall i :: 0 <= i < w ==> |r[i]| == h
        invariant forall i, j :: 0 <= i < w && 0 <= j < h ==>
          r[i][j] == if h - 1 - j < y || (h - 1 - j == y && i < x) then m[h - 1 - j][i] else false
      {
        r := r[x := r[x][h - 1 - y := m[y][x]]];
      }
    }
    var want := Rotated(m);
    forall i | 0 <= i < w
      ensures r[i] == want[i]
    {
    }
  }

  /** The cell rule of `rotate`: input cell (y, x) of an h x w matrix ends up
      at (x, h - 1 - y), and every output cell comes from one input cell. */
  lemma RotatedAt(m: Matrix)
    requires IsRect(m)
    ensures forall y, x :: 0 <= y < |m| && 0 <= x < |m[0]| ==> Rotated(m)[x][|m| - 1 - y] == m[y][x]
    ensures forall i, j :: 0 <= i < |m[0]| && 0 <= j < |m| ==> Rotated(m)[i][j] == m[|m| - 1 - j][i]
  {
  }

  /** A quarter turn of a shape is a shape (w x h, w and h both positive). */
  lemma RotatedIsRect(m: Matrix)
    requires IsRect(m) && |m[0]| >= 1
    ensures IsRect(Rotated(m)) && |Rotated(m)[0]| == |m| >= 1
  {
  }

  /** The half turn: cell (i, j) of an h x w matrix is input cell
      (h - 1 - i, w - 1 - j). */
  function HalfTurn(m: Matrix): (r: Matrix)
    requires IsRect(m)
  {
    var h, w := |m|, |m[0]|;
    seq(h, i requires 0 <= i < h => seq(w, j requires 0 <= j < w => m[h - 1 - i][w - 1 - j]))
  }

  /** Two quarter turns make a half turn. */
  lemma RotatedTwice(m: Matrix)
    requires IsRect(m) && |m[0]| >= 1
    ensures Rotated(Rotated(m)) == HalfTurn(m)
  {
    var r1 := Rotated(m);
    RotatedIsRect(m);
    var r2 := Rotated(r1);
    var want := HalfTurn(m);
    assert |r2| == |want|;
    forall i | 0 <= i < |m|
      ensures r2[i] == want[i]
    {
      assert |r2[i]| == |want[i]|;
      forall j | 0 <= j < |m[0]|
        ensures r2[i][j] == want[i][j]
      {
        calc {
          r2[i][j];
          r1[|r1| - 1 - j][i];
          m[|m| - 1 - i][|m[0]| - 1 - j];
        }
      }
    }
  }

  /** Two half turns give the matrix back. */
  lemma HalfTurnTwice(m: Matrix)
    requires IsRect(m) && |m[0]| >= 1
    ensures IsRect(HalfTurn(m)) && HalfTurn(HalfTurn(m)) == m
  {
    var h1 := HalfTurn(m);
    assert IsRect(h1);
    var h2 := HalfTurn(h1);
    assert |h2| == |m|;
    forall i | 0 <= i < |m|
      ensures h2[i] == m[i]
    {
      assert |h2[i]| == |m[i]|;
    }
  }

  /** Four clockwise quarter turns give the original matrix back. */
  lemma RotatedFourTimes(m: Matrix)
    requires IsRect(m) && |m[0]| >= 1
    ensures Rotated(Rotated(Rotated(Rotated(m)))) == m
  {
    RotatedTwice(m);
    var h := HalfTurn(m);
    HalfTurnTwice(m);
    RotatedTwice(h);
  }

  /** The occupied cells of a matrix, as (row, column) pairs. */
  ghost function Occupied(m: Matrix): set<(int, int)> {
    set y, x | 0 <= y < |m| && 0 <= x < |m[y]| && m[y][x] :: (y, x)
  }

  /** Where the quarter turn sends cell (y, x) of a matrix of height h. */
  function Turned(c: (int, int), h: int): (int, int) {
    (c.1, h - 1 - c.0)
  }

  /** The quarter turn moves cells without merging any, so sets of cells keep
      their size. */
  lemma {:induction false} TurnedCard(s: set<(int, int)>, h: int)
    ensures |set c | c in s :: Turned(c, h)| == |s|
    decreases |s|
  {
    if s != {} {
      var c :| c in s;
      var rest := s - {c};
      TurnedCard(rest, h);
      var img := set d | d in s :: Turned(d, h);
      var imgRest := set d | d in rest :: Turned(d, h);
      assert img == imgRest + {Turned(c, h)};
      assert forall d | d in rest :: Turned(d, h) != Turned(c, h);
    }
  }

  /** rotate keeps the number of occupied cells (so a piece stays a tetromino). */
  lemma RotatedKeepsCells(m: Matrix)
    requires IsRect(m)
    ensures Occupied(Rotated(m)) == set c | c in Occupied(m) :: Turned(c, |m|)
    ensures |Occupied(Rotated(m))| == |Occupied(m)|
    ensures HasCell(m) ==> HasCell(Rotated(m))
  {
    var r := Rotated(m);
    var h := |m|;
    var img := set c | c in Occupied(m) :: Turned(c, h);
    forall c | c in Occupied(r)
      ensures c in img
    {
      var i, j := c.0, c.1;
      assert r[i][j] == m[h - 1 - j][i];
      assert (h - 1 - j, i) in Occupied(m);
      assert Turned((h - 1 - j, i), h) == c;
    }
    forall c | c in img
      ensures c in Occupied(r)
    {
      var d :| d in Occupied(m) && Turned(d, h) == c;
      var y, x := d.0, d.1;
      assert |m[y]| == |m[0]|;
      assert r[x][h - 1 - y] == m[y][x];
    }
    assert Occupied(r) == img;
    TurnedCard(Occupied(m), h);
    if HasCell(m) {
      var y, x :| 0 <= y < |m| && 0 <= x < |m[y]| && m[y][x];
      assert |m[y]| == |m[0]|;
      assert r[x][h - 1 - y];
    }
  }

  /** A quarter turn of a shape is a shape. */
  lemma RotatedIsShape(m: Matrix)
    requires IsShape(m)
    ensures IsShape(Rotated(m))
  {
    RotatedIsRect(m);
    RotatedKeepsCells(m);
  }
}
