/** The moves available in the opening position: the knights' four jumps
    followed by the eight single pawn pushes, twelve moves in all. */
module Opening {
  import opened ChessTypes
  import opened Boards
  import opened MoveGen

  /** The pawn pushes from row 1 to row 2, for columns c, c+1, ..., 7. */
  function PawnPushesFrom(c: int): (ms: seq<Move>)
    requires 0 <= c <= Size
    ensures |ms| == Size - c
    ensures forall i :: 0 <= i < |ms| ==> ms[i] == NewMove(1, c + i, 2, c + i)
    decreases Size - c
  {
    if c == Size then [] else [NewMove(1, c, 2, c)] + PawnPushesFrom(c + 1)
  }

  /** What `generateMoves` yields on the opening board, in order. */
  function OpeningMoves(): seq<Move> {
    [NewMove(0, 1, 2, 2), NewMove(0, 1, 2, 0), NewMove(0, 6, 2, 7), NewMove(0, 6, 2, 5)]
    + PawnPushesFrom(0)
  }

  /** The board `initBoard` sets up, with White to move. */
  predicate IsOpening(b: Board) {
    b.Valid() && b.sideToMove == White
    && forall r, c :: 0 <= r < Size && 0 <= c < Size ==> b.grid[r][c] == InitialSquare(r, c)
  }

  /** A ray whose first square is off the board or holds a piece of the
      mover's colour is empty. */
  lemma RayBlockedAtStart(b: Board, r: int, c: int, dr: int, dc: int)
    requires b.Valid() && InBounds(r, c) && UnitStep(dr, dc)
    requires RayStop(b, r, c, Along(r, dr, 1), Along(c, dc, 1))
    ensures Ray(b, r, c, dr, dc) == []
  {
    var line := Line(b, r, c, dr, dc);
    if |line| > 0 {
      assert line[0] == b.grid[Along(r, dr, 1)][Along(c, dc, 1)];
    }
  }

  /** Sliding over directions that are all blocked at their first square
      yields nothing. */
  lemma {:induction false} SlidingBlocked(b: Board, r: int, c: int, dirs: seq<(int, int)>)
    requires b.Valid() && InBounds(r, c) && AllUnitSteps(dirs)
    requires forall k :: 0 <= k < |dirs| ==>
               RayStop(b, r, c, Along(r, dirs[k].0, 1), Along(c, dirs[k].1, 1))
    ensures SlidingMoves(b, r, c, dirs) == []
    decreases |dirs|
  {
    if |dirs| > 0 {
      RayBlockedAtStart(b, r, c, dirs[0].0, dirs[0].1);
      assert forall k :: 0 <= k < |dirs| - 1 ==> dirs[1..][k] == dirs[k + 1];
      SlidingBlocked(b, r, c, dirs[1..]);
    }
  }

  /** On the opening board every step away from a square of row 0 leaves the
      board or meets a White piece. */
  lemma BackRankIsEnclosed(b: Board, c: int, dr: int, dc: int)
    requires IsOpening(b) && 0 <= c < Size && UnitStep(dr, dc)
    ensures RayStop(b, 0, c, Along(0, dr, 1), Along(c, dc, 1))
  {
    var x := Along(0, dr, 1);
    var y := Along(c, dc, 1);
    assert b.grid[0][c] == InitialSquare(0, c);
    if InBounds(x, y) {
      assert x == 0 || x == 1;
      assert b.grid[x][y] == InitialSquare(x, y);
    }
  }

  /** Sliding pieces on row 0 of the opening board have no move. */
  lemma BackRankSlidersAreStuck(b: Board, c: int, dirs: seq<(int, int)>)
    requires IsOpening(b) && 0 <= c < Size && AllUnitSteps(dirs)
    ensures SlidingMoves(b, 0, c, dirs) == []
  {
    forall k | 0 <= k < |dirs|
      ensures RayStop(b, 0, c, Along(0, dirs[k].0, 1), Along(c, dirs[k].1, 1))
    {
      BackRankIsEnclosed(b, c, dirs[k].0, dirs[k].1);
    }
    SlidingBlocked(b, 0, c, dirs);
  }

  /** The White king on (0,4) has no move at the start. */
  lemma KingIsStuck(b: Board)
    requires IsOpening(b)
    ensures StepMoves(b, 0, 4, KingOffsets) == []
  {
    forall y | 0 <= y < Size
      ensures b.grid[0][y].color == White && b.grid[1][y].color == White
    {
      assert b.grid[0][y] == InitialSquare(0, y);
      assert b.grid[1][y] == InitialSquare(1, y);
    }
    StepsBlocked(b, 0, 4, KingOffsets);
  }

  /** Offsets none of which yields a move give no moves at all. */
  lemma {:induction false} StepsBlocked(b: Board, r: int, c: int, offs: seq<(int, int)>)
    requires b.Valid() && InBounds(r, c)
    requires forall k :: 0 <= k < |offs| ==> Step(b, r, c, offs[k]) == []
    ensures StepMoves(b, r, c, offs) == []
    decreases |offs|
  {
    if |offs| > 0 {
      assert forall k :: 0 <= k < |offs| - 1 ==> offs[1..][k] == offs[k + 1];
      StepsBlocked(b, r, c, offs[1..]);
    }
  }

  /** The last six knight offsets lead nowhere from (0, c): off the board or
      onto a White pawn. */
  lemma KnightTailBlocked(b: Board, c: int)
    requires IsOpening(b) && (c == 1 || c == 6)
    ensures StepMoves(b, 0, c, KnightOffsets[2..]) == []
  {
    assert b.grid[0][c] == InitialSquare(0, c);
    forall y | 0 <= y < Size
      ensures b.grid[1][y].color == White
    {
      assert b.grid[1][y] == InitialSquare(1, y);
    }
    StepsBlocked(b, 0, c, KnightOffsets[2..]);
  }

  /** The knight on (0, c) jumps to (2, c+1) and then (2, c-1). */
  lemma KnightJumps(b: Board, c: int)
    requires IsOpening(b) && (c == 1 || c == 6)
    ensures StepMoves(b, 0, c, KnightOffsets) == [NewMove(0, c, 2, c + 1), NewMove(0, c, 2, c - 1)]
  {
    var offs := KnightOffsets;
    assert b.grid[0][c] == InitialSquare(0, c);
    assert b.grid[2][c + 1] == InitialSquare(2, c + 1);
    assert b.grid[2][c - 1] == InitialSquare(2, c - 1);
    KnightTailBlocked(b, c);
    assert Step(b, 0, c, offs[0]) == [NewMove(0, c, 2, c + 1)];
    assert Step(b, 0, c, offs[1]) == [NewMove(0, c, 2, c - 1)];
    assert offs[1..][1..] == offs[2..];
    assert offs[1..][0] == offs[1];
    assert StepMoves(b, 0, c, offs[1..]) == Step(b, 0, c, offs[1]) + StepMoves(b, 0, c, offs[2..]);
  }

  /** A White rook, bishop or queen on row 0 of the opening board has no
      move. */
  lemma SliderIsStuck(b: Board, c: int, kind: PieceType, dirs: seq<(int, int)>)
    requires IsOpening(b) && 0 <= c < Size
    requires (kind == Rook && dirs == RookDirections) || (kind == Bishop && dirs == BishopDirections)
             || (kind == Queen && dirs == QueenDirections)
    requires BackRank(c) == kind
    ensures PieceMoves(b, 0, c) == []
    ensures KnightJumpsFrom(c) == []
  {
    assert b.grid[0][c] == InitialSquare(0, c);
    DirectionListsAreUnitSteps();
    BackRankSlidersAreStuck(b, c, dirs);
  }

  /** The knights' squares of row 0. */
  lemma KnightSquare(b: Board, c: int)
    requires IsOpening(b) && (c == 1 || c == 6)
    ensures PieceMoves(b, 0, c) == KnightJumpsFrom(c)
  {
    assert b.grid[0][c] == InitialSquare(0, c);
    KnightJumps(b, c);
  }

  /** The king's square of row 0. */
  lemma KingSquare(b: Board)
    requires IsOpening(b)
    ensures PieceMoves(b, 0, 4) == KnightJumpsFrom(4)
  {
    assert b.grid[0][4] == InitialSquare(0, 4);
    KingIsStuck(b);
  }

  /** The pieces of row 0, square by square. */
  lemma BackRankMoves(b: Board, c: int)
    requires IsOpening(b) && 0 <= c < Size
    ensures PieceMoves(b, 0, c) == KnightJumpsFrom(c)
  {
    if c == 1 || c == 6 {
      KnightSquare(b, c);
    } else if c == 4 {
      KingSquare(b);
    } else if c == 0 || c == 7 {
      SliderIsStuck(b, c, Rook, RookDirections);
    } else if c == 2 || c == 5 {
      SliderIsStuck(b, c, Bishop, BishopDirections);
    } else {
      SliderIsStuck(b, c, Queen, QueenDirections);
    }
  }

  /** Each pawn of row 1 can only push one square. */
  lemma PawnRowMoves(b: Board, c: int)
    requires IsOpening(b) && 0 <= c < Size
    ensures PieceMoves(b, 1, c) == [NewMove(1, c, 2, c)]
  {
    assert b.grid[1][c] == InitialSquare(1, c);
    assert b.grid[2][c] == InitialSquare(2, c);
    assert c - 1 >= 0 ==> b.grid[2][c - 1] == InitialSquare(2, c - 1);
    assert c + 1 < Size ==> b.grid[2][c + 1] == InitialSquare(2, c + 1);
  }

  /** No piece on rows 2 to 7 belongs to White, so the scan finds nothing
      there. */
  lemma {:induction false} QuietRow(b: Board, r: int, c: int)
    requires IsOpening(b) && 2 <= r < Size && 0 <= c <= Size
    ensures RowScan(b, r, c) == []
    decreases Size - c
  {
    if c < Size {
      assert b.grid[r][c] == InitialSquare(r, c);
      QuietRow(b, r, c + 1);
    }
  }

  lemma {:induction false} QuietRows(b: Board, r: int)
    requires IsOpening(b) && 2 <= r <= Size
    ensures BoardScan(b, r) == []
    decreases Size - r
  {
    if r < Size {
      QuietRow(b, r, 0);
      QuietRows(b, r + 1);
    }
  }

  /** The scan over row 1 from column c on yields the pushes in column order. */
  lemma {:induction false} PawnRowScan(b: Board, c: int)
    requires IsOpening(b) && 0 <= c <= Size
    ensures RowScan(b, 1, c) == PawnPushesFrom(c)
    decreases Size - c
  {
    if c < Size {
      PawnRowMoves(b, c);
      PawnRowScan(b, c + 1);
    }
  }

  /** The knight jumps from square (0, c), if a knight stands there at the
      start. */
  function KnightJumpsFrom(c: int): seq<Move> {
    if c == 1 || c == 6 then [NewMove(0, c, 2, c + 1), NewMove(0, c, 2, c - 1)] else []
  }

  /** The moves from row 0 at column c onwards. */
  function BackRankTail(c: int): seq<Move>
    requires 0 <= c <= Size
    decreases Size - c
  {
    if c == Size then [] else KnightJumpsFrom(c) + BackRankTail(c + 1)
  }

  /** The scan over row 0 from column c on. */
  lemma {:induction false} BackRankScan(b: Board, c: int)
    requires IsOpening(b) && 0 <= c <= Size
    ensures RowScan(b, 0, c) == BackRankTail(c)
    decreases Size - c
  {
    if c < Size {
      BackRankMoves(b, c);
      BackRankScan(b, c + 1);
    }
  }

  /** Row 0 contributes the two knights' jumps. */
  lemma BackRankTailValue()
    ensures BackRankTail(0)
            == [NewMove(0, 1, 2, 2), NewMove(0, 1, 2, 0), NewMove(0, 6, 2, 7), NewMove(0, 6, 2, 5)]
  {
    assert BackRankTail(7) == [];
    assert BackRankTail(6) == KnightJumpsFrom(6);
    assert BackRankTail(2) == BackRankTail(6);
  }

  /** Rows 1 to 7 of the opening board yield the pawn pushes. */
  lemma PawnRowsOnward(b: Board)
    requires IsOpening(b)
    ensures BoardScan(b, 1) == PawnPushesFrom(0)
  {
    PawnRowScan(b, 0);
    QuietRows(b, 2);
    assert BoardScan(b, 1) == RowScan(b, 1, 0) + BoardScan(b, 2);
  }

  /** The whole scan of an opening board. */
  lemma OpeningScan(b: Board)
    requires IsOpening(b)
    ensures BoardScan(b, 0) == OpeningMoves()
  {
    BackRankScan(b, 0);
    BackRankTailValue();
    PawnRowsOnward(b);
    assert BoardScan(b, 0) == RowScan(b, 0, 0) + BoardScan(b, 1);
  }

  /** From the opening position the generator yields exactly twelve moves:
      the knights on (0,1) and (0,6), each jumping towards the higher column
      first, then the pawns of row 1 pushing one square, column by column. */
  lemma OpeningMoveList()
    ensures GenerateMoves(NewBoard()) == OpeningMoves()
    ensures |GenerateMoves(NewBoard())| == 12
  {
    OpeningScan(NewBoard());
  }
}
