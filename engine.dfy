/** The game engine: scoring and speed rules, the engine state and the
    operations that drive it (move, turn, soft and hard drop, lock, restart,
    pause, the gravity scheduler `step` and the input gate `triggerAction`).

    Each operation is given twice: a ghost function on the `State` value,
    which is the reference definition the lemmas reason about, and a method
    of class `Game`, whose fields are the module-level variables of the game
    and whose methods update them step by step as the game does. */
module Engine {
  import opened Board
  import opened Pieces

  const START_INTERVAL: int := 500
  const BASE_INTERVAL: int := 520
  const MIN_INTERVAL: int := 95
  const SPEED_DIVISOR: int := 650
  const SPEED_STEP: int := 20

  // ---------------------------------------------------------------------------
  // Scoring and speed

  /** The points for one lock that clears `lines` rows: the table
      0/120/320/560/900 for 0 to 4 lines, and `lines * 220` past its end. */
  function Points(lines: nat): (pts: nat)
    ensures pts == 0 <==> lines == 0
  {
    if lines < 5 then [0, 120, 320, 560, 900][lines] else lines * 220
  }

  /** More lines at once never earn fewer points. */
  lemma PointsMonotone(a: nat, b: nat)
    requires a <= b
    ensures Points(a) <= Points(b)
  {
    if b >= 5 {
      assert Points(b) >= 1100;
    }
  }

  /** A four-line clear pays more than four single-line clears. */
  lemma PointsFourLineBonus()
    ensures Points(4) > 4 * Points(1)
  {
  }

  /** The gravity interval set on each lock:
      max(95, 520 - floor(score / 650) * 20). */
  function Interval(score: nat): (ms: int)
    ensures MIN_INTERVAL <= ms <= BASE_INTERVAL
  {
    var slowed := BASE_INTERVAL - (score / SPEED_DIVISOR) * SPEED_STEP;
    if slowed > MIN_INTERVAL then slowed else MIN_INTERVAL
  }

  /** A higher score never gives a longer interval. */
  lemma IntervalMonotone(a: nat, b: nat)
    requires a <= b
    ensures Interval(b) <= Interval(a)
  {
    assert a / SPEED_DIVISOR <= b / SPEED_DIVISOR;
  }

  // ---------------------------------------------------------------------------
  // Engine state

  /** The module-level variables of the game. */
  datatype State = State(
    grid: Grid,
    current: Piece,
    score: nat,
    linesTotal: nat,
    gameOver: bool,
    paused: bool,
    dropCounter: int,
    lastTime: int,
    dropInterval: int)

  /** The placement of the current piece, shifted by (dx, dy) and drawn with
      matrix m, collides. */
  ghost predicate BlockedAt(s: State, dx: int, dy: int, m: Matrix)
    requires GridWF(s.grid)
  {
    Blocked(s.grid, m, s.current.x + dx, s.current.y + dy)
  }

  /** What holds between any two operations: the board has its fixed size
      and no full row, the piece is a shape of at most 4 x 4 cells, a game
      in progress has its piece at a legal place, and the interval lies
      between the floor and the base. */
  ghost predicate Inv(s: State) {
    && GridWF(s.grid)
    && NoFullRow(s.grid)
    && IsShape(s.current.matrix)
    && |s.current.matrix| <= 4 && |s.current.matrix[0]| <= 4
    && (!s.gameOver ==> !BlockedAt(s, 0, 0, s.current.matrix))
    && MIN_INTERVAL <= s.dropInterval <= BASE_INTERVAL
  }

  /** updateScore(lines): add the points and the line count. */
  ghost function UpdateScoreSpec(s: State, lines: nat): State {
    s.(score := s.score + Points(lines), linesTotal := s.linesTotal + lines)
  }

  /** lockAndNext: merge the piece, clear full rows, score them, recompute
      the interval, spawn piece `idx`, and end the game if it collides. */
  ghost function LockSpec(s: State, idx: ShapeIndex): State
    requires GridWF(s.grid)
  {
    var merged := Merged(s.grid, s.current);
    var lines := FullCount(merged);
    var s1 := s.(grid := Cleared(merged));
    var s2 := if lines > 0 then UpdateScoreSpec(s1, lines) else s1;
    var next := PickPiece(idx);
    assert GridWF(s2.grid) by { ClearedWF(merged); }
    s2.(dropInterval := Interval(s2.score),
        current := next,
        gameOver := s2.gameOver || Blocked(s2.grid, next.matrix, next.x, next.y))
  }

  /** softDrop: one row down if that row is free, otherwise lock. */
  ghost function SoftDropSpec(s: State, idx: ShapeIndex): State
    requires GridWF(s.grid)
  {
    if !BlockedAt(s, 0, 1, s.current.matrix) then s.(current := s.current.(y := s.current.y + 1))
    else LockSpec(s, idx)
  }

  /** hardDrop: move the piece to its landing row, then lock. */
  ghost function HardDropSpec(s: State, idx: ShapeIndex): State
    requires GridWF(s.grid) && HasCell(s.current.matrix)
  {
    LockSpec(s.(current := s.current.(y := DropRow(s.grid, s.current))), idx)
  }

  /** move(dx): shift sideways if the shifted piece does not collide. */
  ghost function MoveSpec(s: State, dx: int): State
    requires GridWF(s.grid)
  {
    if !BlockedAt(s, dx, 0, s.current.matrix) then s.(current := s.current.(x := s.current.x + dx))
    else s
  }

  /** The placement `turn` leaves: the piece rotated clockwise at the first
      of the shifts 0, -1, +1 that does not collide on `g`; the piece itself
      if all three collide. */
  ghost function TurnedPlacement(g: Grid, p: Piece): Piece
    requires GridWF(g) && IsRect(p.matrix)
  {
    var r := Rotated(p.matrix);
    if !Blocked(g, r, p.x, p.y) then p.(matrix := r)
    else if !Blocked(g, r, p.x - 1, p.y) then p.(x := p.x - 1, matrix := r)
    else if !Blocked(g, r, p.x + 1, p.y) then p.(x := p.x + 1, matrix := r)
    else p
  }

  /** turn: only the current piece changes, to its turned placement. */
  ghost function TurnSpec(s: State): State
    requires GridWF(s.grid) && IsRect(s.current.matrix)
  {
    s.(current := TurnedPlacement(s.grid, s.current))
  }

  /** restart: empty board, piece `idx`, counters and flags back to their
      start values (interval 500), `updateScore(0)`, clock read as `now`. */
  ghost function RestartSpec(idx: ShapeIndex, now: int): State {
    UpdateScoreSpec(State(CreateGrid(), PickPiece(idx), 0, 0, false, false, 0, now, START_INTERVAL), 0)
  }

  /** togglePause. */
  ghost function TogglePauseSpec(s: State): State {
    s.(paused := !s.paused)
  }

  /** step(timestamp): nothing once the game is over; otherwise record the
      time and, unless paused, add the elapsed time to the drop counter and,
      when it reaches the interval, soft-drop once and reset the counter. */
  ghost function StepSpec(s: State, timestamp: int, idx: ShapeIndex): State
    requires GridWF(s.grid)
  {
    if s.gameOver then s
    else
      var delta := timestamp - s.lastTime;
      var s1 := s.(lastTime := timestamp);
      if s1.paused then s1
      else
        var s2 := s1.(dropCounter := s1.dropCounter + delta);
        if s2.dropCounter >= s2.dropInterval then SoftDropSpec(s2, idx).(dropCounter := 0)
        else s2
  }

  /** triggerAction(action): while the game is over only "restart" gets
      through; unknown actions do nothing. */
  ghost function ActionSpec(s: State, action: string, idx: ShapeIndex, now: int): State
    requires Inv(s)
  {
    if s.gameOver && action != "restart" then s
    else if action == "left" then MoveSpec(s, -1)
    else if action == "right" then MoveSpec(s, 1)
    else if action == "down" then SoftDropSpec(s, idx)
    else if action == "drop" then HardDropSpec(s, idx)
    else if action == "rotate" then TurnSpec(s)
    else if action == "pause" then TogglePauseSpec(s)
    else if action == "restart" then RestartSpec(idx, now)
    else s
  }

  // ---------------------------------------------------------------------------
  // The invariant is kept by every operation

  lemma RestartKeepsInv(idx: ShapeIndex, now: int)
    ensures Inv(RestartSpec(idx, now))
    ensures RestartSpec(idx, now).score == 0 && RestartSpec(idx, now).linesTotal == 0
    ensures RestartSpec(idx, now).grid == CreateGrid() && !RestartSpec(idx, now).gameOver
  {
    SpawnFreeOnEmpty(idx, 0);
    var g := CreateGrid();
    forall r | 0 <= r < |g|
      ensures !IsFull(g[r])
    {
      assert g[r][0] == Empty;
    }
  }

  lemma LockKeepsInv(s: State, idx: ShapeIndex)
    requires GridWF(s.grid)
    ensures Inv(LockSpec(s, idx))
  {
    ClearedWF(Merged(s.grid, s.current));
  }

  lemma MoveKeepsInv(s: State, dx: int)
    requires Inv(s)
    ensures Inv(MoveSpec(s, dx))
  {
  }

  lemma TurnKeepsInv(s: State)
    requires Inv(s)
    ensures Inv(TurnSpec(s))
  {
    RotatedIsShape(s.current.matrix);
  }

  lemma SoftDropKeepsInv(s: State, idx: ShapeIndex)
    requires Inv(s)
    ensures Inv(SoftDropSpec(s, idx))
  {
    if BlockedAt(s, 0, 1, s.current.matrix) {
      LockKeepsInv(s, idx);
    }
  }

  lemma HardDropKeepsInv(s: State, idx: ShapeIndex)
    requires Inv(s)
    ensures Inv(HardDropSpec(s, idx))
  {
    LockKeepsInv(s.(current := s.current.(y := DropRow(s.grid, s.current))), idx);
  }

  lemma StepKeepsInv(s: State, timestamp: int, idx: ShapeIndex)
    requires Inv(s)
    ensures Inv(StepSpec(s, timestamp, idx))
  {
    if !s.gameOver && !s.paused {
      var s2 := s.(lastTime := timestamp, dropCounter := s.dropCounter + (timestamp - s.lastTime));
      if s2.dropCounter >= s2.dropInterval {
        SoftDropKeepsInv(s2, idx);
        assert StepSpec(s, timestamp, idx) == SoftDropSpec(s2, idx).(dropCounter := 0);
      }
    }
  }

  lemma ActionKeepsInv(s: State, action: string, idx: ShapeIndex, now: int)
    requires Inv(s)
    ensures Inv(ActionSpec(s, action, idx, now))
  {
    if s.gameOver && action != "restart" {
    } else if action == "left" {
      MoveKeepsInv(s, -1);
    } else if action == "right" {
      MoveKeepsInv(s, 1);
    } else if action == "down" {
      SoftDropKeepsInv(s, idx);
    } else if action == "drop" {
      HardDropKeepsInv(s, idx);
    } else if action == "rotate" {
      TurnKeepsInv(s);
    } else if action == "restart" {
      RestartKeepsInv(idx, now);
    }
  }

  // ---------------------------------------------------------------------------
  // Properties of the operations

  /** A gravity step of a running, unpaused game leaves the drop counter
      below the interval: either it did not reach it, or it was reset to 0
      after the soft drop. */
  lemma StepCounterBelowInterval(s: State, timestamp: int, idx: ShapeIndex)
    requires Inv(s) && !s.gameOver && !s.paused
    ensures StepSpec(s, timestamp, idx).dropCounter < StepSpec(s, timestamp, idx).dropInterval
  {
    StepKeepsInv(s, timestamp, idx);
  }

  /** A turn either changes nothing or installs the quarter turn of the old
      matrix, shifted by 0, -1 or +1, at a place that does not collide; the
      piece keeps its number of cells either way. */
  lemma TurnResult(s: State)
    requires Inv(s)
    ensures var t := TurnSpec(s);
      t == s || (
        && t.current.matrix == Rotated(s.current.matrix)
        && t.current.x - s.current.x in {0, -1, 1}
        && t.current.y == s.current.y && t.current.color == s.current.color
        && !Blocked(s.grid, t.current.matrix, t.current.x, t.current.y))
    ensures |Occupied(TurnSpec(s).current.matrix)| == |Occupied(s.current.matrix)|
  {
    RotatedKeepsCells(s.current.matrix);
  }

  /** A piece that is not blocked lands at its ghost row, in a free place,
      and every cell of it on the board is filled in the merged grid. */
  lemma HardDropLandsAtGhost(s: State, idx: ShapeIndex)
    requires Inv(s) && !s.gameOver
    ensures var landed := s.current.(y := DropRow(s.grid, s.current));
      && IsLanding(s.grid, s.current, landed.y)
      && !Blocked(s.grid, landed.matrix, landed.x, landed.y)
      && HardDropSpec(s, idx).grid == Cleared(Merged(s.grid, landed))
      && forall y, x :: 0 <= y < |landed.matrix| && 0 <= x < |landed.matrix[y]| && landed.matrix[y][x] && landed.y + y >= 0 ==>
           && 0 <= landed.x + x < COLS && landed.y + y < ROWS
           && Merged(s.grid, landed)[landed.y + y][landed.x + x] == Block(landed.color)
  {
    var landed := s.current.(y := DropRow(s.grid, s.current));
    DropRowLands(s.grid, s.current);
    DropRowFree(s.grid, s.current);
    NotBlockedFits(s.grid, landed);
    MergedShowsPiece(s.grid, landed);
  }

  /** A lock in play clears at most four lines, so the points always come
      from the table and the `lines * 220` fallback is never used. */
  lemma LockClearsAtMostFour(s: State, idx: ShapeIndex)
    requires Inv(s) && !s.gameOver
    ensures FullCount(Merged(s.grid, s.current)) <= 4
    ensures LockSpec(s, idx).score - s.score == [0, 120, 320, 560, 900][FullCount(Merged(s.grid, s.current))]
    ensures LockSpec(s, idx).linesTotal == s.linesTotal + FullCount(Merged(s.grid, s.current))
  {
    NotBlockedFits(s.grid, s.current);
    MergedFullRowsBound(s.grid, s.current);
  }

  /** The O piece spawned on an empty board has rows 18 and 19 as its
      landing rows. */
  lemma OLandsOnFloor(g: Grid, p: Piece)
    requires g == CreateGrid() && p == PickPiece(3)
    ensures GridWF(g) && DropRow(g, p) == ROWS - 2
  {
    assert p.matrix == [[true, true], [true, true]];
    assert CellHits(g, p.matrix, p.x, ROWS - 1, 1, 0);
    forall k | p.y < k <= ROWS - 2
      ensures !Blocked(g, p.matrix, p.x, k)
    {
      forall y, x | 0 <= y < 2 && 0 <= x < 2
        ensures !CellHits(g, p.matrix, p.x, k, y, x)
      {
      }
    }
    assert IsLanding(g, p, ROWS - 2);
    LandingIsDropRow(g, p, ROWS - 2);
  }

  /** The O piece merged at rows 18 and 19 of an empty board fills columns
      3 and 4 of both rows with its colour and leaves no full row. */
  lemma OMergedOnFloor(g: Grid, landed: Piece)
    requires g == CreateGrid() && landed == PickPiece(3).(y := ROWS - 2)
    ensures Cleared(Merged(g, landed)) == Merged(g, landed)
    ensures FullCount(Merged(g, landed)) == 0
    ensures var mg := Merged(g, landed);
      && mg[ROWS - 2][3] == mg[ROWS - 2][4] == Block(COLORS[3])
      && mg[ROWS - 1][3] == mg[ROWS - 1][4] == Block(COLORS[3])
  {
    assert landed.matrix == [[true, true], [true, true]];
    var mg := Merged(g, landed);
    forall r | 0 <= r < |mg|
      ensures !IsFull(mg[r])
    {
      assert !Covers(landed.matrix, landed.x, landed.y, r, 0);
      assert mg[r][0] == Empty;
    }
    KeptNoFull(mg);
    assert Covers(landed.matrix, landed.x, landed.y, ROWS - 2, 3);
    assert Covers(landed.matrix, landed.x, landed.y, ROWS - 2, 4);
    assert Covers(landed.matrix, landed.x, landed.y, ROWS - 1, 3);
    assert Covers(landed.matrix, landed.x, landed.y, ROWS - 1, 4);
  }

  /** The O piece dropped on an empty board lands on the floor (rows 18 and
      19), fills its four cells with its colour and clears no line. */
  lemma ODropsToFloor(now: int, idx: ShapeIndex)
    ensures var s := RestartSpec(3, now);
      && DropRow(s.grid, s.current) == ROWS - 2
      && var t := HardDropSpec(s, idx);
         && GridWF(t.grid) && t.score == 0 && t.linesTotal == 0
         && t.grid[ROWS - 2][3] == t.grid[ROWS - 2][4] == Block(COLORS[3])
         && t.grid[ROWS - 1][3] == t.grid[ROWS - 1][4] == Block(COLORS[3])
  {
    var s := RestartSpec(3, now);
    RestartKeepsInv(3, now);
    OLandsOnFloor(s.grid, s.current);
    OMergedOnFloor(s.grid, s.current.(y := ROWS - 2));
    HardDropKeepsInv(s, idx);
  }

  // ---------------------------------------------------------------------------
  // Runs of frames and inputs

  /** What drives the engine: a display frame at a timestamp, or an input
      action; `next` is the shape a spawn would pick, `now` the clock a
      restart would read. */
  datatype Event =
    | Frame(timestamp: int, next: ShapeIndex)
    | Press(action: string, next: ShapeIndex, now: int)

  /** One event: a frame runs `step`, an input runs `triggerAction`. */
  ghost function Apply(s: State, e: Event): (t: State)
    requires Inv(s)
    ensures Inv(t)
  {
    match e
    case Frame(ts, idx) =>
      assert Inv(StepSpec(s, ts, idx)) by { StepKeepsInv(s, ts, idx); }
      StepSpec(s, ts, idx)
    case Press(a, idx, now) =>
      assert Inv(ActionSpec(s, a, idx, now)) by { ActionKeepsInv(s, a, idx, now); }
      ActionSpec(s, a, idx, now)
  }

  /** A sequence of events, applied in order. */
  ghost function Run(s: State, evs: seq<Event>): (t: State)
    requires Inv(s)
    ensures Inv(t)
    decreases |evs|
  {
    if evs == [] then s else Run(Apply(s, evs[0]), evs[1..])
  }

  predicate IsRestart(e: Event) {
    e.Press? && e.action == "restart"
  }

  /** Once the game is over, no frame and no input other than "restart"
      changes anything at all. */
  lemma {:induction false} GameOverFrozen(s: State, evs: seq<Event>)
    requires Inv(s) && s.gameOver
    requires forall i :: 0 <= i < |evs| ==> !IsRestart(evs[i])
    ensures Run(s, evs) == s
    decreases |evs|
  {
    if evs != [] {
      assert Apply(s, evs[0]) == s;
      GameOverFrozen(s, evs[1..]);
    }
  }

  // ---------------------------------------------------------------------------
  // The frame loop

  /** The engine state together with whether a call of `step` is scheduled
      for the next display frame. */
  datatype Session = Session(state: State, armed: bool)

  /** The loop as the script runs it: a frame does nothing unless a call of
      `step` was requested; `step` requests the next frame only when the game
      was not over. Inputs, "restart" included, leave the request alone. */
  ghost function ApplyAsWritten(ss: Session, e: Event): (t: Session)
    requires Inv(ss.state)
    ensures Inv(t.state)
  {
    match e
    case Frame(_, _) =>
      if !ss.armed then ss else Session(Apply(ss.state, e), !ss.state.gameOver)
    case Press(_, _, _) =>
      Session(Apply(ss.state, e), ss.armed)
  }

  /** The loop as intended: the same, except that "restart" requests a frame
      when none is pending, so the new game has gravity and drawing again. */
  ghost function ApplyFixed(ss: Session, e: Event): (t: Session)
    requires Inv(ss.state)
    ensures Inv(t.state)
  {
    match e
    case Frame(_, _) =>
      if !ss.armed then ss else Session(Apply(ss.state, e), !ss.state.gameOver)
    case Press(a, _, _) =>
      Session(Apply(ss.state, e), ss.armed || a == "restart")
  }

  /** A game in progress has a frame scheduled. */
  ghost predicate Live(ss: Session) {
    !ss.state.gameOver ==> ss.armed
  }

  /** With the fix, every event keeps a live session live. */
  lemma FixedLoopStaysLive(ss: Session, e: Event)
    requires Inv(ss.state) && Live(ss)
    ensures Live(ApplyFixed(ss, e))
  {
  }

  /** A sequence of events under the fixed loop. */
  ghost function RunFixed(ss: Session, evs: seq<Event>): (t: Session)
    requires Inv(ss.state)
    ensures Inv(t.state)
    decreases |evs|
  {
    if evs == [] then ss else RunFixed(ApplyFixed(ss, evs[0]), evs[1..])
  }

  /** The script starts live (restart, then one requested frame), and with
      the fix it stays live whatever frames and inputs follow. */
  lemma {:induction false} FixedRunStaysLive(ss: Session, evs: seq<Event>)
    requires Inv(ss.state) && Live(ss)
    ensures Live(RunFixed(ss, evs))
    decreases |evs|
  {
    if evs != [] {
      FixedLoopStaysLive(ss, evs[0]);
      FixedRunStaysLive(ApplyFixed(ss, evs[0]), evs[1..]);
    }
  }

  /** As written, a game that ends stops the loop for good: after the frame
      that sees the game over and a restart, the new game is running but no
      frame is scheduled, and a frame however late changes nothing. */
  lemma RestartLeavesLoopStopped(s: State, t1: int, i1: ShapeIndex, idx: ShapeIndex, now: int, t2: int, i2: ShapeIndex)
    requires Inv(s) && s.gameOver
    ensures var ss := ApplyAsWritten(ApplyAsWritten(Session(s, true), Frame(t1, i1)), Press("restart", idx, now));
      && !ss.state.gameOver && !ss.armed && !Live(ss)
      && ApplyAsWritten(ss, Frame(t2, i2)) == ss
  {
    RestartKeepsInv(idx, now);
  }

  /** With the fix, the same events leave a frame scheduled, and the first
      frame 500 ms after the restart lets gravity move the new piece down. */
  lemma RestartRearmsLoop(s: State, t1: int, i1: ShapeIndex, idx: ShapeIndex, now: int, i2: ShapeIndex)
    requires Inv(s) && s.gameOver
    ensures var ss := ApplyFixed(ApplyFixed(Session(s, true), Frame(t1, i1)), Press("restart", idx, now));
      && !ss.state.gameOver && ss.armed && Live(ss)
      && ApplyFixed(ss, Frame(now + START_INTERVAL, i2)).state.current.y == 1
  {
    RestartKeepsInv(idx, now);
    SpawnFreeOnEmpty(idx, 1);
  }

  /** The board half of `lockAndNext`: merge the piece into the grid, then
      clear the full rows; the result has its fixed size and no full row. */
  method Settle(g: Grid, p: Piece) returns (cleared: Grid, lines: nat)
    requires GridWF(g) && Fits(p)
    ensures GridWF(cleared) && NoFullRow(cleared)
    ensures cleared == Cleared(Merged(g, p)) && lines == FullCount(Merged(g, p))
  {
    var merged := Merge(g, p);
    cleared, lines := ClearLines(merged);
    ClearedWF(merged);
  }

  /** `LockSpec` in the order `lockAndNext` computes it: the settled grid and
      its line count, then the score, the interval, the new piece and the
      collision test of the new piece on the settled grid. */
  lemma LockStages(s: State, idx: ShapeIndex, g: Grid, lines: nat, next: Piece)
    requires GridWF(s.grid)
    requires g == Cleared(Merged(s.grid, s.current)) && lines == FullCount(Merged(s.grid, s.current))
    requires next == PickPiece(idx)
    ensures GridWF(g)
    ensures var s2 := if lines > 0 then UpdateScoreSpec(s.(grid := g), lines) else s.(grid := g);
      LockSpec(s, idx) == s2.(dropInterval := Interval(s2.score), current := next,
                              gameOver := s.gameOver || Blocked(g, next.matrix, next.x, next.y))
  {
    ClearedWF(Merged(s.grid, s.current));
  }

  /** The collision tests of `turn`: rotate the matrix, then try the
      shifts 0, -1 and +1 in that order. */
  method TurnPlacement(g: Grid, p: Piece) returns (q: Piece)
    requires GridWF(g) && IsRect(p.matrix)
    ensures q == TurnedPlacement(g, p)
  {
    var rotated := Rotate(p.matrix);
    var hit := Collides(g, p, 0, 0, rotated);
    if !hit {
      return p.(matrix := rotated);
    }
    hit := Collides(g, p, -1, 0, rotated);
    if !hit {
      return p.(x := p.x - 1, matrix := rotated);
    }
    hit := Collides(g, p, 1, 0, rotated);
    if !hit {
      return p.(x := p.x + 1, matrix := rotated);
    }
    return p;
  }

  // ---------------------------------------------------------------------------
  // The game itself: the module-level variables, updated in place

  class Game {
    var grid: Grid
    var current: Piece
    var score: nat
    var linesTotal: nat
    var gameOver: bool
    var paused: bool
    var dropCounter: int
    var lastTime: int
    var dropInterval: int

    ghost function Abs(): State
      reads this
    {
      State(grid, current, score, linesTotal, gameOver, paused, dropCounter, lastTime, dropInterval)
    }

    ghost predicate Valid()
      reads this
    {
      Inv(Abs())
    }

    /** The variables as the script initialises them, with `idx` as the
        first random pick and the clock at 0. */
    constructor (idx: ShapeIndex)
      ensures Abs() == State(CreateGrid(), PickPiece(idx), 0, 0, false, false, 0, 0, START_INTERVAL)
      ensures Valid()
    {
      grid := CreateGrid();
      current := PickPiece(idx);
      score := 0;
      linesTotal := 0;
      gameOver := false;
      paused := false;
      dropCounter := 0;
      lastTime := 0;
      dropInterval := START_INTERVAL;
      new;
      RestartKeepsInv(idx, 0);
    }

    method UpdateScore(lines: nat)
      modifies this
      ensures Abs() == UpdateScoreSpec(old(Abs()), lines)
    {
      score := score + Points(lines);
      linesTotal := linesTotal + lines;
    }

    method LockAndNext(idx: ShapeIndex)
      requires Valid() && !gameOver
      modifies this
      ensures Abs() == LockSpec(old(Abs()), idx)
      ensures Valid()
    {
      ghost var s0 := Abs();
      NotBlockedFits(grid, current);
      var g, lines := Settle(grid, current);
      var next := PickPiece(idx);
      LockStages(s0, idx, g, lines, next);
      var hit := Collides(g, next, 0, 0, next.matrix);
      grid := g;
      if lines > 0 {
        UpdateScore(lines);
      }
      dropInterval := Interval(score);
      current := next;
      if hit {
        gameOver := true;
      }
      LockKeepsInv(s0, idx);
    }

    method SoftDrop(idx: ShapeIndex) returns (advanced: bool)
      requires Valid() && !gameOver
      modifies this
      ensures Abs() == SoftDropSpec(old(Abs()), idx)
      ensures Valid()
      ensures advanced == !BlockedAt(old(Abs()), 0, 1, old(current).matrix)
    {
      var g, p := grid, current;
      var hit := Collides(g, p, 0, 1, p.matrix);
      if !hit {
        current := p.(y := p.y + 1);
        return true;
      }
      LockAndNext(idx);
      return false;
    }

    method HardDrop(idx: ShapeIndex)
      requires Valid() && !gameOver
      modifies this
      ensures Abs() == HardDropSpec(old(Abs()), idx)
      ensures Valid()
    {
      var hit := Collides(grid, current, 0, 1, current.matrix);
      while !hit
        invariant Valid() && !gameOver
        invariant Abs() == old(Abs()).(current := old(current).(y := current.y))
        invariant DropRow(grid, current) == DropRow(old(grid), old(current))
        invariant hit == Blocked(grid, current.matrix, current.x, current.y + 1)
        decreases ROWS - current.y
      {
        if current.y + 1 >= ROWS { BlockedBelowFloor(grid, current.matrix, current.x, current.y + 1); }
        current := current.(y := current.y + 1);
        hit := Collides(grid, current, 0, 1, current.matrix);
      }
      LockAndNext(idx);
    }

    method Move(dx: int)
      requires Valid()
      modifies this
      ensures Abs() == MoveSpec(old(Abs()), dx)
      ensures Valid()
    {
      var hit := Collides(grid, current, dx, 0, current.matrix);
      if !hit {
        current := current.(x := current.x + dx);
      }
    }

    method Turn()
      requires Valid()
      modifies this
      ensures Abs() == TurnSpec(old(Abs()))
      ensures Valid()
    {
      ghost var s0 := Abs();
      TurnKeepsInv(s0);
      current := TurnPlacement(grid, current);
    }

    /** restart, with `now` standing for performance.now(). */
    method Restart(idx: ShapeIndex, now: int)
      modifies this
      ensures Abs() == RestartSpec(idx, now)
      ensures Valid()
    {
      grid := CreateGrid();
      current := PickPiece(idx);
      score := 0;
      linesTotal := 0;
      gameOver := false;
      paused := false;
      dropCounter := 0;
      dropInterval := START_INTERVAL;
      UpdateScore(0);
      lastTime := now;
      RestartKeepsInv(idx, now);
    }

    method Step(timestamp: int, idx: ShapeIndex)
      requires Valid()
      modifies this
      ensures Abs() == StepSpec(old(Abs()), timestamp, idx)
      ensures Valid()
    {
      ghost var s0 := Abs();
      StepKeepsInv(s0, timestamp, idx);
      if gameOver {
        return;
      }
      var delta := timestamp - lastTime;
      lastTime := timestamp;
      if paused {
        assert Abs() == StepSpec(s0, timestamp, idx);
        return;
      }
      dropCounter := dropCounter + delta;
      if dropCounter < dropInterval {
        assert Abs() == StepSpec(s0, timestamp, idx);
        return;
      }
      ghost var s2 := Abs();
      assert StepSpec(s0, timestamp, idx) == SoftDropSpec(s2, idx).(dropCounter := 0);
      var _ := SoftDrop(idx);
      dropCounter := 0;
    }

    method TogglePause()
      requires Valid()
      modifies this
      ensures Abs() == TogglePauseSpec(old(Abs()))
      ensures Valid()
    {
      paused := !paused;
    }

    /** triggerAction(action), with `idx` for a piece it may spawn and `now`
        for the clock a restart reads. */
    method TriggerAction(action: string, idx: ShapeIndex, now: int)
      requires Valid()
      modifies this
      ensures Abs() == ActionSpec(old(Abs()), action, idx, now)
      ensures Valid()
    {
      if gameOver && action != "restart" {
        return;
      }
      if action == "left" {
        Move(-1);
      } else if action == "right" {
        Move(1);
      } else if action == "down" {
        var _ := SoftDrop(idx);
      } else if action == "drop" {
        HardDrop(idx);
      } else if action == "rotate" {
        Turn();
      } else if action == "pause" {
        TogglePause();
      } else if action == "restart" {
        Restart(idx, now);
      }
    }
  }
}
