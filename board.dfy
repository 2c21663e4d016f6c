/** The playing field: a ROWS x COLS matrix of cells, and the queries and
    updates the engine runs on it (collision test, merging a locked piece,
    clearing full rows, and the landing-row projection of the ghost piece). */
module Board {

  const COLS: int := 10
  const ROWS: int := 20

  /** A board cell is either empty (the source's `0`) or holds a colour. */
  datatype Cell = Empty | Block(color: string)

  type Row = seq<Cell>
  type Grid = seq<Row>

  /** A piece's occupancy matrix; `true` stands for the source's `1`. */
  type Matrix = seq<seq<bool>>

  /** The active piece: its matrix, its colour and the board position of the
      top-left corner of the matrix. */
  datatype Piece = Piece(matrix: Matrix, color: string, x: int, y: int)

  /** The grid has exactly ROWS rows of exactly COLS cells. */
  predicate GridWF(g: Grid) {
    |g| == ROWS && forall r :: 0 <= r < |g| ==> |g[r]| == COLS
  }

  function EmptyRow(): (row: Row)
    ensures |row| == COLS && forall c :: 0 <= c < COLS ==> row[c] == Empty
  {
    seq(COLS, _ => Empty)
  }

  /** createGrid: a fresh board with every cell empty. */
  function CreateGrid(): (g: Grid)
    ensures GridWF(g)
    ensures forall r, c :: 0 <= r < ROWS && 0 <= c < COLS ==> g[r][c] == Empty
  {
    seq(ROWS, _ => EmptyRow())
  }

  /** A matrix with at least one occupied cell. */
  ghost predicate HasCell(m: Matrix) {
    exists y, x :: 0 <= y < |m| && 0 <= x < |m[y]| && m[y][x]
  }

  // ---------------------------------------------------------------------------
  // collides

  /** Whether a block may not be at column c, row r: off either side, at or
      below the floor, or on a filled cell. Rows above the top are open. */
  predicate HitsAt(g: Grid, c: int, r: int)
    requires GridWF(g)
  {
    c < 0 || c >= COLS || r >= ROWS || (r >= 0 && g[r][c] != Empty)
  }

  /** Matrix cell (y, x), placed with the matrix's corner at (px, py), is
      occupied and lands where a block may not be. */
  predicate CellHits(g: Grid, m: Matrix, px: int, py: int, y: int, x: int)
    requires GridWF(g) && 0 <= y < |m| && 0 <= x < |m[y]|
  {
    m[y][x] && HitsAt(g, px + x, py + y)
  }

  /** The specification of `collides`: some occupied cell of m, placed with
      the matrix's corner at (px, py), hits. */
  ghost predicate Blocked(g: Grid, m: Matrix, px: int, py: int)
    requires GridWF(g)
  {
    exists y, x :: 0 <= y < |m| && 0 <= x < |m[y]| && CellHits(g, m, px, py, y, x)
  }

  /** collides(grid, piece, offsetX, offsetY, matrix): row-by-row scan of the
      matrix that stops at the first occupied cell that hits. */
  method Collides(g: Grid, p: Piece, offsetX: int, offsetY: int, m: Matrix) returns (hit: bool)
    requires GridWF(g)
    ensures hit == Blocked(g, m, p.x + offsetX, p.y + offsetY)
  {
    var px, py := p.x + offsetX, p.y + offsetY;
    var y := 0;
    while y < |m|
      invariant 0 <= y <= |m|
      invariant forall yy, xx :: 0 <= yy < y && 0 <= xx < |m[yy]| ==> !CellHits(g, m, px, py, yy, xx)
    {
      var x := 0;
      while x < |m[y]|
        invariant 0 <= x <= |m[y]|
        invariant forall xx :: 0 <= xx < x ==> !CellHits(g, m, px, py, y, xx)
      {
        if m[y][x] {
          var nx := p.x + x + offsetX;
          var ny := p.y + y + offsetY;
          if nx < 0 || nx >= COLS || ny >= ROWS {
            assert CellHits(g, m, px, py, y, x);
            return true;
          }
          if ny >= 0 && g[ny][nx] != Empty {
            assert CellHits(g, m, px, py, y, x);
            return true;
          }
        }
        x := x + 1;
      }
      y := y + 1;
    }
    return false;
  }

  /** A matrix with a cell, placed at or below the floor, is blocked. */
  lemma BlockedBelowFloor(g: Grid, m: Matrix, px: int, py: int)
    requires GridWF(g) && HasCell(m) && py >= ROWS
    ensures Blocked(g, m, px, py)
  {
    var y, x :| 0 <= y < |m| && 0 <= x < |m[y]| && m[y][x];
    assert CellHits(g, m, px, py, y, x);
  }

  // ---------------------------------------------------------------------------
  // merge

  /** Every occupied cell lies on a column of the board and above the floor:
      the bounds that `merge` relies on, since it checks only row >= 0. */
  ghost predicate Fits(p: Piece) {
    forall y, x :: 0 <= y < |p.matrix| && 0 <= x < |p.matrix[y]| && p.matrix[y][x] ==>
      0 <= p.x + x < COLS && p.y + y < ROWS
  }

  /** A placement that does not collide fits. */
  lemma NotBlockedFits(g: Grid, p: Piece)
    requires GridWF(g) && !Blocked(g, p.matrix, p.x, p.y)
    ensures Fits(p)
  {
    forall y, x | 0 <= y < |p.matrix| && 0 <= x < |p.matrix[y]| && p.matrix[y][x]
      ensures 0 <= p.x + x < COLS && p.y + y < ROWS
    {
      assert !CellHits(g, p.matrix, p.x, p.y, y, x);
    }
  }

  /** Board cell (c, r) lies under an occupied cell of m placed at (px, py). */
  predicate Covers(m: Matrix, px: int, py: int, r: int, c: int) {
    0 <= r - py < |m| && 0 <= c - px < |m[r - py]| && m[r - py][c - px]
  }

  /** The specification of `merge`: the piece's colour on every cell it
      covers, every other cell as it was. */
  function Merged(g: Grid, p: Piece): (r: Grid)
    requires GridWF(g)
    ensures GridWF(r)
  {
    seq(ROWS, row requires 0 <= row < ROWS =>
      seq(COLS, col requires 0 <= col < COLS =>
        if Covers(p.matrix, p.x, p.y, row, col) then Block(p.color) else g[row][col]))
  }

  /** merge(grid, piece): writes the colour for each occupied matrix cell
      whose board row is not above the top. */
  method Merge(grid: Grid, p: Piece) returns (g: Grid)
    requires GridWF(grid) && Fits(p)
    ensures g == Merged(grid, p)
  {
    g := grid;
    var m := p.matrix;
    for y := 0 to |m|
      invariant GridWF(g)
      invariant forall r, c :: 0 <= r < ROWS && 0 <= c < COLS ==>
        g[r][c] == if Covers(m, p.x, p.y, r, c) && r - p.y < y then Block(p.color) else grid[r][c]
    {
      for x := 0 to |m[y]|
        invariant GridWF(g)
        invariant forall r, c :: 0 <= r < ROWS && 0 <= c < COLS ==>
          g[r][c] == if Covers(m, p.x, p.y, r, c) && (r - p.y < y || (r - p.y == y && c - p.x < x))
                     then Block(p.color) else grid[r][c]
      {
        if m[y][x] {
          var gx := p.x + x;
          var gy := p.y + y;
          if gy >= 0 {
            g := g[gy := g[gy][gx := Block(p.color)]];
          }
        }
      }
    }
    var want := Merged(grid, p);
    forall r | 0 <= r < ROWS
      ensures g[r] == want[r]
    {
    }
  }

  /** Lock invariant: after merging, every occupied matrix cell whose row is
      on the board shows the piece's colour, and rows the piece does not
      reach are untouched. */
  lemma MergedShowsPiece(g: Grid, p: Piece)
    requires GridWF(g) && Fits(p)
    ensures forall y, x :: 0 <= y < |p.matrix| && 0 <= x < |p.matrix[y]| && p.matrix[y][x] && p.y + y >= 0 ==>
              Merged(g, p)[p.y + y][p.x + x] == Block(p.color)
    ensures forall r :: 0 <= r < ROWS && !(p.y <= r < p.y + |p.matrix|) ==> Merged(g, p)[r] == g[r]
  {
    var mg := Merged(g, p);
    forall y, x | 0 <= y < |p.matrix| && 0 <= x < |p.matrix[y]| && p.matrix[y][x] && p.y + y >= 0
      ensures mg[p.y + y][p.x + x] == Block(p.color)
    {
      assert Covers(p.matrix, p.x, p.y, p.y + y, p.x + x);
    }
    forall r | 0 <= r < ROWS && !(p.y <= r < p.y + |p.matrix|)
      ensures mg[r] == g[r]
    {
      assert forall c :: 0 <= c < COLS ==> !Covers(p.matrix, p.x, p.y, r, c);
    }
  }

  // ---------------------------------------------------------------------------
  // clearLines

  /** A row is full when no cell of it is empty. */
  predicate IsFull(row: Row) {
    forall c :: 0 <= c < |row| ==> row[c] != Empty
  }

  /** The number of full rows. */
  function FullCount(rows: seq<Row>): nat {
    if rows == [] then 0 else (if IsFull(rows[0]) then 1 else 0) + FullCount(rows[1..])
  }

  /** The rows that are not full, in their original order. */
  function Kept(rows: seq<Row>): seq<Row> {
    if rows == [] then [] else (if IsFull(rows[0]) then [] else [rows[0]]) + Kept(rows[1..])
  }

  function EmptyRows(k: nat): (rows: seq<Row>)
    ensures |rows| == k && forall i :: 0 <= i < k ==> rows[i] == EmptyRow()
  {
    seq(k, _ => EmptyRow())
  }

  /** The specification of `clearLines`: one empty row on top for each full
      row removed, then the surviving rows in their original order. */
  function Cleared(g: Grid): seq<Row> {
    EmptyRows(FullCount(g)) + Kept(g)
  }

  /** Every row is either full and counted, or kept. */
  lemma {:induction false} KeptLength(rows: seq<Row>)
    ensures |Kept(rows)| + FullCount(rows) == |rows|
    ensures forall i :: 0 <= i < |Kept(rows)| ==> !IsFull(Kept(rows)[i]) && Kept(rows)[i] in rows
  {
    if rows != [] {
      KeptLength(rows[1..]);
    }
  }

  /** clearLines keeps exactly ROWS rows of COLS cells, and leaves no full row. */
  lemma ClearedWF(g: Grid)
    requires GridWF(g)
    ensures GridWF(Cleared(g)) && NoFullRow(Cleared(g))
  {
    KeptLength(g);
    var k := FullCount(g);
    var c := Cleared(g);
    forall r | 0 <= r < ROWS
      ensures |c[r]| == COLS && !IsFull(c[r])
    {
      if r < k {
        assert c[r] == EmptyRow();
        assert c[r][0] == Empty;
      } else {
        assert c[r] == Kept(g)[r - k];
      }
    }
  }

  predicate NoFullRow(g: Grid) {
    forall r :: 0 <= r < |g| ==> !IsFull(g[r])
  }

  /** Rows that are not full are all kept, in order. */
  lemma {:induction false} KeptNoFull(rows: seq<Row>)
    requires forall r :: 0 <= r < |rows| ==> !IsFull(rows[r])
    ensures Kept(rows) == rows && FullCount(rows) == 0
  {
    if rows != [] {
      KeptNoFull(rows[1..]);
    }
  }

  /** Clearing a cleared board changes nothing and finds no line. */
  lemma ClearedIdempotent(g: Grid)
    requires GridWF(g)
    ensures FullCount(Cleared(g)) == 0 && Cleared(Cleared(g)) == Cleared(g)
  {
    ClearedWF(g);
    KeptNoFull(Cleared(g));
  }

  /** If every full row has its index in [lo, hi), there are at most
      hi - lo of them. */
  lemma {:induction false} FullCountWindow(rows: seq<Row>, lo: int, hi: int)
    requires lo <= hi
    requires forall r :: 0 <= r < |rows| && IsFull(rows[r]) ==> lo <= r < hi
    ensures FullCount(rows) <= hi - lo
  {
    if rows != [] {
      var rest := rows[1..];
      assert forall r :: 0 <= r < |rest| ==> rest[r] == rows[r + 1];
      if IsFull(rows[0]) {
        FullCountWindow(rest, 0, hi - 1);
      } else {
        FullCountWindow(rest, lo - 1, hi - 1);
      }
    }
  }

  /** Merging into a board without full rows can only fill rows the piece
      reaches, so one lock clears at most as many lines as the piece is tall. */
  lemma MergedFullRowsBound(g: Grid, p: Piece)
    requires GridWF(g) && NoFullRow(g) && Fits(p)
    ensures FullCount(Merged(g, p)) <= |p.matrix|
  {
    var mg := Merged(g, p);
    MergedShowsPiece(g, p);
    forall r | 0 <= r < |mg| && IsFull(mg[r])
      ensures p.y <= r < p.y + |p.matrix|
    {
    }
    FullCountWindow(mg, p.y, p.y + |p.matrix|);
  }

  /** The grid in the middle of the `clearLines` scan: the empty rows put on
      top so far, the rows not yet scanned, and the rows kept so far. */
  function Scanning(grid: seq<Row>, lines: nat, j: int): seq<Row>
    requires 0 <= j <= |grid|
  {
    EmptyRows(lines) + grid[..j] + Kept(grid[j..])
  }

  /** A full row at the scan position is spliced out with an empty row put
      on top: one more line, one row fewer to scan. */
  lemma ScanFull(grid: seq<Row>, lines: nat, j: int)
    requires 0 < j <= |grid| && IsFull(grid[j - 1])
    ensures var g := Scanning(grid, lines, j);
      var y := lines + j - 1;
      [EmptyRow()] + (g[..y] + g[y + 1..]) == Scanning(grid, lines + 1, j - 1)
    ensures FullCount(grid[j - 1..]) == FullCount(grid[j..]) + 1
  {
    var g := Scanning(grid, lines, j);
    var y := lines + j - 1;
    assert grid[j - 1..][1..] == grid[j..];
    assert g[..y] == EmptyRows(lines) + grid[..j - 1];
    assert g[y + 1..] == Kept(grid[j..]);
    assert [EmptyRow()] + EmptyRows(lines) == EmptyRows(lines + 1);
  }

  /** A row that is not full at the scan position stays: the same grid,
      one row fewer to scan. */
  lemma ScanKeep(grid: seq<Row>, lines: nat, j: int)
    requires 0 < j <= |grid| && !IsFull(grid[j - 1])
    ensures Scanning(grid, lines, j) == Scanning(grid, lines, j - 1)
    ensures FullCount(grid[j - 1..]) == FullCount(grid[j..])
  {
    assert grid[j - 1..][1..] == grid[j..];
    assert grid[..j] == grid[..j - 1] + [grid[j - 1]];
  }

  /** One test of the scan at index y: a full row is always an original
      row (the rows put on top are empty) and is spliced out; an original
      row that is not full is passed over. */
  lemma ScanStep(grid: seq<Row>, lines: nat, j: int, y: int)
    requires 0 <= j <= |grid| && 0 <= y && y + 1 <= lines + j
    requires j > 0 ==> y + 1 == lines + j
    ensures var g := Scanning(grid, lines, j);
      && y < |g|
      && (IsFull(g[y]) ==>
            && j > 0
            && [EmptyRow()] + (g[..y] + g[y + 1..]) == Scanning(grid, lines + 1, j - 1)
            && FullCount(grid[j - 1..]) == FullCount(grid[j..]) + 1)
      && (!IsFull(g[y]) && j > 0 ==>
            && g == Scanning(grid, lines, j - 1)
            && FullCount(grid[j - 1..]) == FullCount(grid[j..]))
  {
    var g := Scanning(grid, lines, j);
    if j > 0 {
      assert g[y] == grid[j - 1];
      if IsFull(grid[j - 1]) {
        ScanFull(grid, lines, j);
      } else {
        ScanKeep(grid, lines, j);
      }
    } else {
      assert g[y] == EmptyRow();
      assert g[y][0] == Empty;
    }
  }

  /** clearLines(grid): bottom-up scan; a full row at index y is spliced out,
      an empty row is put on top, and the same index is tested again. */
  method ClearLines(grid: Grid) returns (g: Grid, lines: nat)
    requires GridWF(grid)
    ensures g == Cleared(grid) && lines == FullCount(grid)
  {
    g := grid;
    lines := 0;
    var y := ROWS - 1;
    // j: the original rows grid[..j] not yet scanned
    ghost var j := ROWS;
    assert g == Scanning(grid, lines, j);
    while y >= 0
      invariant -1 <= y < ROWS && 0 <= j <= ROWS
      invariant g == Scanning(grid, lines, j)
      invariant lines == FullCount(grid[j..])
      invariant y + 1 <= lines + j && (j > 0 ==> y + 1 == lines + j)
      decreases y + 1 + j
    {
      ScanStep(grid, lines, j, y);
      if IsFull(g[y]) {
        g := [EmptyRow()] + (g[..y] + g[y + 1..]);
        lines := lines + 1;
        j := j - 1;
      } else {
        if j > 0 {
          j := j - 1;
        }
        y := y - 1;
      }
    }
    assert grid[0..] == grid;
  }

  // ---------------------------------------------------------------------------
  // getGhostY

  /** The specification of `getGhostY`: step the piece down one row at a time
      until the next row would collide. */
  ghost function DropRow(g: Grid, p: Piece): int
    requires GridWF(g) && HasCell(p.matrix)
    decreases ROWS - p.y
  {
    if Blocked(g, p.matrix, p.x, p.y + 1) then p.y
    else
      assert p.y + 1 < ROWS by {
        if p.y + 1 >= ROWS { BlockedBelowFloor(g, p.matrix, p.x, p.y + 1); }
      }
      DropRow(g, p.(y := p.y + 1))
  }

  /** The landing row seen from a start row: at or below the start, blocked
      one row further down, and free on every row passed on the way. */
  ghost predicate IsLanding(g: Grid, p: Piece, r: int)
    requires GridWF(g)
  {
    && r >= p.y
    && Blocked(g, p.matrix, p.x, r + 1)
    && forall k :: p.y < k <= r ==> !Blocked(g, p.matrix, p.x, k)
  }

  /** DropRow is the landing row. */
  lemma {:induction false} DropRowLands(g: Grid, p: Piece)
    requires GridWF(g) && HasCell(p.matrix)
    ensures IsLanding(g, p, DropRow(g, p))
    decreases ROWS - p.y
  {
    if !Blocked(g, p.matrix, p.x, p.y + 1) {
      if p.y + 1 >= ROWS { BlockedBelowFloor(g, p.matrix, p.x, p.y + 1); }
      DropRowLands(g, p.(y := p.y + 1));
    }
  }

  /** ... and the only one: any landing row is DropRow. */
  lemma {:induction false} LandingIsDropRow(g: Grid, p: Piece, r: int)
    requires GridWF(g) && HasCell(p.matrix) && IsLanding(g, p, r)
    ensures r == DropRow(g, p)
    decreases r - p.y
  {
    if r > p.y {
      assert !Blocked(g, p.matrix, p.x, p.y + 1);
      LandingIsDropRow(g, p.(y := p.y + 1), r);
    }
  }

  /** If the start does not collide, neither does the landing position. */
  lemma DropRowFree(g: Grid, p: Piece)
    requires GridWF(g) && HasCell(p.matrix) && !Blocked(g, p.matrix, p.x, p.y)
    ensures !Blocked(g, p.matrix, p.x, DropRow(g, p))
  {
    DropRowLands(g, p);
  }

  /** getGhostY(grid, piece): count rows down while one more row is free. */
  method GetGhostY(g: Grid, p: Piece) returns (y: int)
    requires GridWF(g) && HasCell(p.matrix)
    ensures y == DropRow(g, p)
    ensures IsLanding(g, p, y)
  {
    y := p.y;
    var hit := Collides(g, p, 0, y - p.y + 1, p.matrix);
    while !hit
      invariant DropRow(g, p.(y := y)) == DropRow(g, p)
      invariant hit == Blocked(g, p.matrix, p.x, y + 1)
      decreases ROWS - y
    {
      if y + 1 >= ROWS { BlockedBelowFloor(g, p.matrix, p.x, y + 1); }
      y := y + 1;
      hit := Collides(g, p, 0, y - p.y + 1, p.matrix);
    }
    DropRowLands(g, p);
  }
}
