/** Pseudo-legal move generation (`generateMoves` and its four private
    generators in Board.cpp): pawn single pushes and diagonal captures,
    knights, sliding pieces and the king, scanned in row-major order. There is
    no check test, no castling, no two-square push and no en passant. */
module MoveGen {
  import opened ChessTypes
  import opened Boards

  /** One of the eight unit steps a sliding ray or a king can take. */
  predicate UnitStep(dr: int, dc: int) {
    -1 <= dr <= 1 && -1 <= dc <= 1 && (dr != 0 || dc != 0)
  }

  /** The destination of a move is free for the mover: empty, or held by a
      piece of another colour. */
  predicate Enterable(b: Board, r: int, c: int, tr: int, tc: int)
    requires b.Valid() && InBounds(r, c) && InBounds(tr, tc)
  {
    b.grid[tr][tc].kind == Empty || b.grid[tr][tc].color != b.grid[r][c].color
  }

  /** What every move produced for the piece on (r, c) looks like: it starts
      there, ends on another square of the board that is free for the mover,
      and carries score 0. */
  predicate MoveShape(b: Board, r: int, c: int, m: Move)
    requires b.Valid() && InBounds(r, c)
  {
    m.fromRow == r && m.fromCol == c && m.score == 0
    && InBounds(m.toRow, m.toCol) && !IsNoMove(m)
    && Enterable(b, r, c, m.toRow, m.toCol)
  }

  // ---------------------------------------------------------------------
  // Pawns
  // ---------------------------------------------------------------------

  /** The row step of a pawn: +1 for White and -1 for any other colour. */
  function PawnDir(c: Color): int {
    if c == White then 1 else -1
  }

  /** The pawn rule as a property of a single move: one row forward, either
      straight onto an empty square or one column sideways onto a piece of
      another colour. */
  predicate PawnTarget(b: Board, r: int, c: int, m: Move)
    requires b.Valid() && InBounds(r, c)
  {
    var own := b.grid[r][c].color;
    m.fromRow == r && m.fromCol == c && m.score == 0
    && m.toRow == r + PawnDir(own) && InBounds(m.toRow, m.toCol)
    && ((m.toCol == c && b.grid[m.toRow][m.toCol].kind == Empty)
        || ((m.toCol == c - 1 || m.toCol == c + 1)
            && b.grid[m.toRow][m.toCol].kind != Empty && b.grid[m.toRow][m.toCol].color != own))
  }

  /** Emission rank of a pawn move: the push first, then column c-1, then c+1. */
  function PawnRank(m: Move, c: int): int {
    if m.toCol == c then 0 else if m.toCol < c then 1 else 2
  }

  /** One diagonal of the capture loop, `dc` being -1 or +1. */
  function PawnCapture(b: Board, r: int, c: int, fr: int, dc: int): (ms: seq<Move>)
    requires b.Valid() && InBounds(r, c)
  {
    var fc := c + dc;
    if InBounds(fr, fc) && b.grid[fr][fc].kind != Empty && b.grid[fr][fc].color != b.grid[r][c].color
    then [NewMove(r, c, fr, fc)]
    else []
  }

  /** `generatePawnMoves`: the forward push if that square is empty, then the
      captures towards column c-1 and c+1. */
  function PawnMoves(b: Board, r: int, c: int): seq<Move>
    requires b.Valid() && InBounds(r, c)
  {
    var fr := r + PawnDir(b.grid[r][c].color);
    var push := if InBounds(fr, c) && b.grid[fr][c].kind == Empty then [NewMove(r, c, fr, c)] else [];
    push + PawnCapture(b, r, c, fr, -1) + PawnCapture(b, r, c, fr, 1)
  }

  /** The pawn generator yields exactly the moves the pawn rule allows, the
      push before the capture towards column c-1 before the one towards c+1,
      each at most once. */
  lemma PawnRule(b: Board, r: int, c: int)
    requires b.Valid() && InBounds(r, c)
    ensures var ms := PawnMoves(b, r, c);
            (forall m :: m in ms <==> PawnTarget(b, r, c, m))
            && (forall i, j :: 0 <= i < j < |ms| ==> PawnRank(ms[i], c) < PawnRank(ms[j], c))
            && (forall m :: m in ms ==> MoveShape(b, r, c, m))
  {
  }

  // ---------------------------------------------------------------------
  // Knights and kings: a fixed list of offsets
  // ---------------------------------------------------------------------

  /** The knight's offsets in the order they are declared. */
  const KnightOffsets: seq<(int, int)> :=
    [(2, 1), (2, -1), (-2, 1), (-2, -1), (1, 2), (1, -2), (-1, 2), (-1, -2)]

  /** The king's offsets in the order the `dr`, `dc` loops (each from -1 to 1,
      skipping (0, 0)) visit them. */
  const KingOffsets: seq<(int, int)> :=
    [(-1, -1), (-1, 0), (-1, 1), (0, -1), (0, 1), (1, -1), (1, 0), (1, 1)]

  /** Some offset of the list leads from (r, c) to the move's destination,
      which is on the board and holds no piece of the mover's colour. */
  predicate StepTarget(b: Board, r: int, c: int, offs: seq<(int, int)>, m: Move)
    requires b.Valid() && InBounds(r, c)
  {
    m.fromRow == r && m.fromCol == c && m.score == 0
    && InBounds(m.toRow, m.toCol) && b.grid[m.toRow][m.toCol].color != b.grid[r][c].color
    && exists k :: 0 <= k < |offs| && m.toRow == r + offs[k].0 && m.toCol == c + offs[k].1
  }

  /** The move from (r, c) by offset `d`, when the generator emits it. */
  function Step(b: Board, r: int, c: int, d: (int, int)): (ms: seq<Move>)
    requires b.Valid() && InBounds(r, c)
  {
    var nr := r + d.0;
    var nc := c + d.1;
    if InBounds(nr, nc) && b.grid[nr][nc].color != b.grid[r][c].color then [NewMove(r, c, nr, nc)] else []
  }

  /** The loop over an offset list shared by `generateKnightMoves` and
      `generateKingMoves`. */
  function StepMoves(b: Board, r: int, c: int, offs: seq<(int, int)>): seq<Move>
    requires b.Valid() && InBounds(r, c)
    decreases |offs|
  {
    if |offs| == 0 then [] else Step(b, r, c, offs[0]) + StepMoves(b, r, c, offs[1..])
  }

  /** The offset generator yields no more moves than offsets, and exactly the
      moves some offset leads to. */
  lemma {:induction false} StepRule(b: Board, r: int, c: int, offs: seq<(int, int)>)
    requires b.Valid() && InBounds(r, c)
    ensures var ms := StepMoves(b, r, c, offs);
            |ms| <= |offs| && forall m :: m in ms <==> StepTarget(b, r, c, offs, m)
    decreases |offs|
  {
    if |offs| > 0 {
      StepRule(b, r, c, offs[1..]);
      assert forall m :: StepTarget(b, r, c, offs[1..], m) ==> StepTarget(b, r, c, offs, m) by {
        forall m | StepTarget(b, r, c, offs[1..], m)
          ensures StepTarget(b, r, c, offs, m)
        {
          var k :| 0 <= k < |offs[1..]| && m.toRow == r + offs[1..][k].0 && m.toCol == c + offs[1..][k].1;
          assert offs[k + 1] == offs[1..][k];
        }
      }
      assert forall m :: StepTarget(b, r, c, offs, m) && !(m in Step(b, r, c, offs[0]))
               ==> StepTarget(b, r, c, offs[1..], m) by {
        forall m | StepTarget(b, r, c, offs, m) && !(m in Step(b, r, c, offs[0]))
          ensures StepTarget(b, r, c, offs[1..], m)
        {
          var k :| 0 <= k < |offs| && m.toRow == r + offs[k].0 && m.toCol == c + offs[k].1;
          assert offs[1..][k - 1] == offs[k];
        }
      }
    }
  }

  // ---------------------------------------------------------------------
  // Sliding pieces
  // ---------------------------------------------------------------------

  /** The coordinate k squares from `x` along the unit step `d`. */
  function Along(x: int, d: int, k: int): int {
    if d > 0 then x + k else if d < 0 then x - k else x
  }

  /** The ray cannot continue through (x, y): off the board, or a piece of the
      mover's own colour stands there. */
  predicate RayStop(b: Board, r: int, c: int, x: int, y: int)
    requires b.Valid() && InBounds(r, c)
  {
    !InBounds(x, y) || (b.grid[x][y].kind != Empty && b.grid[x][y].color == b.grid[r][c].color)
  }

  /** (x, y) is on the board and empty. */
  predicate IsEmptySquare(b: Board, x: int, y: int)
    requires b.Valid()
  {
    InBounds(x, y) && b.grid[x][y].kind == Empty
  }

  /** The k-th square of the ray from (r, c) along (dr, dc). */
  function RayMove(r: int, c: int, dr: int, dc: int, k: int): Move {
    NewMove(r, c, Along(r, dr, k), Along(c, dc, k))
  }

  /** How many squares lie between (r, c) and the edge along (dr, dc): the
      squares 1..n of the ray are on the board and square n+1 is not. */
  function Reach(r: int, c: int, dr: int, dc: int): nat
    requires InBounds(r, c) && UnitStep(dr, dc)
  {
    var a := if dr > 0 then Size - 1 - r else if dr < 0 then r else Size;
    var e := if dc > 0 then Size - 1 - c else if dc < 0 then c else Size;
    if a < e then a else e
  }

  /** Squares 1..Reach of the ray are exactly those on the board. */
  lemma ReachIsEdge(r: int, c: int, dr: int, dc: int)
    requires InBounds(r, c) && UnitStep(dr, dc)
    ensures var n := Reach(r, c, dr, dc);
            n < Size
            && (forall i :: 1 <= i <= n ==> InBounds(Along(r, dr, i), Along(c, dc, i)))
            && !InBounds(Along(r, dr, n + 1), Along(c, dc, n + 1))
            && (forall i :: 1 <= i && InBounds(Along(r, dr, i), Along(c, dc, i)) ==> i <= n)
  {
  }

  /** The pieces on squares 1, 2, ... of the ray from (r, c) along (dr, dc),
      up to the edge of the board. */
  function Line(b: Board, r: int, c: int, dr: int, dc: int): (line: seq<Piece>)
    requires b.Valid() && InBounds(r, c) && UnitStep(dr, dc)
    ensures |line| == Reach(r, c, dr, dc)
  {
    ReachIsEdge(r, c, dr, dc);
    seq(Reach(r, c, dr, dc), i requires 0 <= i < Reach(r, c, dr, dc) =>
      b.grid[Along(r, dr, i + 1)][Along(c, dc, i + 1)])
  }

  /** The inner `while` loop of `generateSlidingMoves`, run over the pieces
      of a line: an empty square is emitted and passed, a piece of another
      colour than `own` is emitted and ends the walk, a piece of colour `own`
      or the end of the line ends it without a move. The result is the
      number of squares emitted. */
  function Walk(line: seq<Piece>, own: Color): (n: nat)
    ensures n <= |line|
  {
    if |line| == 0 then 0
    else if line[0].kind == Empty then 1 + Walk(line[1..], own)
    else if line[0].color != own then 1
    else 0
  }

  /** The walk passes only empty squares, stops on a piece it may capture,
      and ends early only in front of a piece of colour `own`. */
  lemma {:induction false} WalkStopsAtFirstPiece(line: seq<Piece>, own: Color)
    ensures var n := Walk(line, own);
            (forall j :: 0 <= j < n - 1 ==> line[j].kind == Empty)
            && (n > 0 ==> line[n - 1].kind == Empty || line[n - 1].color != own)
            && ((n == 0 || line[n - 1].kind == Empty) && n < |line|
                ==> line[n].kind != Empty && line[n].color == own)
  {
    if |line| > 0 && line[0].kind == Empty {
      var rest := line[1..];
      WalkStopsAtFirstPiece(rest, own);
      var n := Walk(line, own);
      assert forall j :: 1 <= j < |line| ==> line[j] == rest[j - 1];
    }
  }

  /** A walk over a line whose first k-1 pieces are empty, and whose k-th
      may be entered, emits at least k squares. */
  lemma {:induction false} WalkReaches(line: seq<Piece>, own: Color, k: int)
    requires 1 <= k <= |line|
    requires forall j :: 0 <= j < k - 1 ==> line[j].kind == Empty
    requires line[k - 1].kind == Empty || line[k - 1].color != own
    ensures k <= Walk(line, own)
    decreases k
  {
    if k > 1 {
      var rest := line[1..];
      assert line[0].kind == Empty;
      assert forall j :: 0 <= j < k - 2 ==> rest[j] == line[j + 1];
      WalkReaches(rest, own, k - 1);
    }
  }

  /** One direction of `generateSlidingMoves`: the squares 1, 2, ... of the
      ray for as long as the walk goes on. */
  function Ray(b: Board, r: int, c: int, dr: int, dc: int): seq<Move>
    requires b.Valid() && InBounds(r, c) && UnitStep(dr, dc)
  {
    seq(Walk(Line(b, r, c, dr, dc), b.grid[r][c].color), i => RayMove(r, c, dr, dc, i + 1))
  }

  /** The i-th move of a ray goes to the square holding the i-th piece of the
      line. */
  lemma RayOnLine(b: Board, r: int, c: int, dr: int, dc: int, i: int)
    requires b.Valid() && InBounds(r, c) && UnitStep(dr, dc)
    requires 0 <= i < |Ray(b, r, c, dr, dc)|
    ensures var m := Ray(b, r, c, dr, dc)[i];
            m == RayMove(r, c, dr, dc, i + 1) && InBounds(m.toRow, m.toCol)
            && b.grid[m.toRow][m.toCol] == Line(b, r, c, dr, dc)[i]
  {
  }

  /** Every square a ray passes before its last move is empty. */
  lemma RayPassesEmptySquares(b: Board, r: int, c: int, dr: int, dc: int)
    requires b.Valid() && InBounds(r, c) && UnitStep(dr, dc)
    ensures var ms := Ray(b, r, c, dr, dc);
            forall i :: 0 <= i < |ms| - 1 ==> IsEmptySquare(b, ms[i].toRow, ms[i].toCol)
  {
    var ms := Ray(b, r, c, dr, dc);
    WalkStopsAtFirstPiece(Line(b, r, c, dr, dc), b.grid[r][c].color);
    forall i | 0 <= i < |ms| - 1
      ensures IsEmptySquare(b, ms[i].toRow, ms[i].toCol)
    {
      RayOnLine(b, r, c, dr, dc, i);
    }
  }

  /** The last move of a ray ends on a square free for the mover. */
  lemma RayLastIsEnterable(b: Board, r: int, c: int, dr: int, dc: int)
    requires b.Valid() && InBounds(r, c) && UnitStep(dr, dc)
    ensures var ms := Ray(b, r, c, dr, dc);
            |ms| > 0 ==> InBounds(ms[|ms| - 1].toRow, ms[|ms| - 1].toCol)
                         && Enterable(b, r, c, ms[|ms| - 1].toRow, ms[|ms| - 1].toCol)
  {
    var ms := Ray(b, r, c, dr, dc);
    WalkStopsAtFirstPiece(Line(b, r, c, dr, dc), b.grid[r][c].color);
    if |ms| > 0 {
      RayOnLine(b, r, c, dr, dc, |ms| - 1);
    }
  }

  /** A ray with no move, or whose last move is to an empty square, is
      followed by the edge of the board or a piece of the mover's colour: the
      ray stops exactly where the loop breaks, so nothing beyond the first
      occupied square is produced and an own-colour blocker is never a
      destination. */
  lemma RayStopsAtBlocker(b: Board, r: int, c: int, dr: int, dc: int)
    requires b.Valid() && InBounds(r, c) && UnitStep(dr, dc)
    ensures var ms := Ray(b, r, c, dr, dc);
            (|ms| == 0 || IsEmptySquare(b, ms[|ms| - 1].toRow, ms[|ms| - 1].toCol))
            ==> RayStop(b, r, c, Along(r, dr, |ms| + 1), Along(c, dc, |ms| + 1))
  {
    var ms := Ray(b, r, c, dr, dc);
    var line := Line(b, r, c, dr, dc);
    var n := |ms|;
    WalkStopsAtFirstPiece(line, b.grid[r][c].color);
    if n > 0 {
      RayOnLine(b, r, c, dr, dc, n - 1);
    }
    if (n == 0 || IsEmptySquare(b, ms[n - 1].toRow, ms[n - 1].toCol)) && n < |line| {
      assert line[n] == b.grid[Along(r, dr, n + 1)][Along(c, dc, n + 1)];
    }
  }

  /** The sliding rule as a property of a single move: it goes k squares
      along (dr, dc) for some k >= 1, stays on the board, passes only empty
      squares and ends on a square free for the mover. */
  predicate RayTarget(b: Board, r: int, c: int, dr: int, dc: int, m: Move)
    requires b.Valid() && InBounds(r, c)
  {
    exists k :: 1 <= k <= Size && m == RayMove(r, c, dr, dc, k) && InBounds(m.toRow, m.toCol)
                && (forall j :: 1 <= j < k ==> IsEmptySquare(b, Along(r, dr, j), Along(c, dc, j)))
                && Enterable(b, r, c, m.toRow, m.toCol)
  }

  /** The squares a ray passes before its i-th move are empty. */
  lemma RayPrefixEmpty(b: Board, r: int, c: int, dr: int, dc: int, i: int)
    requires b.Valid() && InBounds(r, c) && UnitStep(dr, dc)
    requires 0 <= i < |Ray(b, r, c, dr, dc)|
    ensures forall j :: 1 <= j < i + 1 ==> IsEmptySquare(b, Along(r, dr, j), Along(c, dc, j))
  {
    RayPassesEmptySquares(b, r, c, dr, dc);
    forall j | 1 <= j < i + 1
      ensures IsEmptySquare(b, Along(r, dr, j), Along(c, dc, j))
    {
      RayOnLine(b, r, c, dr, dc, j - 1);
    }
  }

  /** Every move of a ray ends on a square free for the mover. */
  lemma RayMoveEnterable(b: Board, r: int, c: int, dr: int, dc: int, i: int)
    requires b.Valid() && InBounds(r, c) && UnitStep(dr, dc)
    requires 0 <= i < |Ray(b, r, c, dr, dc)|
    ensures var m := Ray(b, r, c, dr, dc)[i];
            InBounds(m.toRow, m.toCol) && Enterable(b, r, c, m.toRow, m.toCol)
  {
    var ms := Ray(b, r, c, dr, dc);
    RayOnLine(b, r, c, dr, dc, i);
    if i < |ms| - 1 {
      RayPassesEmptySquares(b, r, c, dr, dc);
      assert IsEmptySquare(b, ms[i].toRow, ms[i].toCol);
    } else {
      RayLastIsEnterable(b, r, c, dr, dc);
    }
  }

  /** Each move of a ray obeys the sliding rule. */
  lemma RayMoveFollowsRule(b: Board, r: int, c: int, dr: int, dc: int, i: int)
    requires b.Valid() && InBounds(r, c) && UnitStep(dr, dc)
    requires 0 <= i < |Ray(b, r, c, dr, dc)|
    ensures RayTarget(b, r, c, dr, dc, Ray(b, r, c, dr, dc)[i])
  {
    RayOnLine(b, r, c, dr, dc, i);
    RayPrefixEmpty(b, r, c, dr, dc, i);
    RayMoveEnterable(b, r, c, dr, dc, i);
    assert 1 <= i + 1 <= Size;
  }

  /** Every move the sliding rule allows in a direction is on its ray. */
  lemma RuleMoveIsOnRay(b: Board, r: int, c: int, dr: int, dc: int, m: Move)
    requires b.Valid() && InBounds(r, c) && UnitStep(dr, dc)
    requires RayTarget(b, r, c, dr, dc, m)
    ensures m in Ray(b, r, c, dr, dc)
  {
    var ms := Ray(b, r, c, dr, dc);
    var line := Line(b, r, c, dr, dc);
    var k :| 1 <= k <= Size && m == RayMove(r, c, dr, dc, k) && InBounds(m.toRow, m.toCol)
             && (forall j :: 1 <= j < k ==> IsEmptySquare(b, Along(r, dr, j), Along(c, dc, j)))
             && Enterable(b, r, c, m.toRow, m.toCol);
    assert k <= |line|;
    forall j | 0 <= j < k - 1
      ensures line[j].kind == Empty
    {
      assert IsEmptySquare(b, Along(r, dr, j + 1), Along(c, dc, j + 1));
    }
    WalkReaches(line, b.grid[r][c].color, k);
    assert ms[k - 1] == m;
  }

  /** A ray holds exactly the moves the sliding rule allows in its direction. */
  lemma RayRule(b: Board, r: int, c: int, dr: int, dc: int)
    requires b.Valid() && InBounds(r, c) && UnitStep(dr, dc)
    ensures forall m :: m in Ray(b, r, c, dr, dc) <==> RayTarget(b, r, c, dr, dc, m)
  {
    var ms := Ray(b, r, c, dr, dc);
    forall m | m in ms
      ensures RayTarget(b, r, c, dr, dc, m)
    {
      var i :| 0 <= i < |ms| && ms[i] == m;
      RayMoveFollowsRule(b, r, c, dr, dc, i);
    }
    forall m | RayTarget(b, r, c, dr, dc, m)
      ensures m in ms
    {
      RuleMoveIsOnRay(b, r, c, dr, dc, m);
    }
  }

  /** Every move of a ray has the shape of a generated move. */
  lemma RayMovesAreShaped(b: Board, r: int, c: int, dr: int, dc: int)
    requires b.Valid() && InBounds(r, c) && UnitStep(dr, dc)
    ensures forall m :: m in Ray(b, r, c, dr, dc) ==> MoveShape(b, r, c, m)
  {
    var ms := Ray(b, r, c, dr, dc);
    RayPassesEmptySquares(b, r, c, dr, dc);
    RayLastIsEnterable(b, r, c, dr, dc);
    forall i | 0 <= i < |ms|
      ensures MoveShape(b, r, c, ms[i])
    {
      RayOnLine(b, r, c, dr, dc, i);
      if i < |ms| - 1 {
        assert IsEmptySquare(b, ms[i].toRow, ms[i].toCol);
      }
    }
  }

  const BishopDirections: seq<(int, int)> := [(1, 1), (1, -1), (-1, 1), (-1, -1)]
  const RookDirections: seq<(int, int)> := [(1, 0), (-1, 0), (0, 1), (0, -1)]
  const QueenDirections: seq<(int, int)> :=
    [(1, 0), (-1, 0), (0, 1), (0, -1), (1, 1), (1, -1), (-1, 1), (-1, -1)]

  predicate AllUnitSteps(dirs: seq<(int, int)>) {
    forall k :: 0 <= k < |dirs| ==> UnitStep(dirs[k].0, dirs[k].1)
  }

  /** The three direction lists are unit steps; the queen's are the rook's
      followed by the bishop's. */
  lemma DirectionListsAreUnitSteps()
    ensures AllUnitSteps(BishopDirections) && AllUnitSteps(RookDirections) && AllUnitSteps(QueenDirections)
    ensures QueenDirections == RookDirections + BishopDirections
  {
  }

  /** `generateSlidingMoves`: the rays of the given directions, in order. */
  function SlidingMoves(b: Board, r: int, c: int, dirs: seq<(int, int)>): seq<Move>
    requires b.Valid() && InBounds(r, c) && AllUnitSteps(dirs)
    decreases |dirs|
  {
    if |dirs| == 0 then []
    else Ray(b, r, c, dirs[0].0, dirs[0].1) + SlidingMoves(b, r, c, dirs[1..])
  }

  /** Every move of a sliding piece has the shape of a generated move. */
  lemma {:induction false} SlidingMovesAreShaped(b: Board, r: int, c: int, dirs: seq<(int, int)>)
    requires b.Valid() && InBounds(r, c) && AllUnitSteps(dirs)
    ensures forall m :: m in SlidingMoves(b, r, c, dirs) ==> MoveShape(b, r, c, m)
    decreases |dirs|
  {
    if |dirs| > 0 {
      var ray := Ray(b, r, c, dirs[0].0, dirs[0].1);
      var rest := SlidingMoves(b, r, c, dirs[1..]);
      assert SlidingMoves(b, r, c, dirs) == ray + rest;
      RayMovesAreShaped(b, r, c, dirs[0].0, dirs[0].1);
      SlidingMovesAreShaped(b, r, c, dirs[1..]);
      forall m | m in ray + rest
        ensures MoveShape(b, r, c, m)
      {
        if m !in ray {
          assert m in rest;
        }
      }
    }
  }

  /** Some direction of the list has a ray reaching the move's destination. */
  predicate SlideTarget(b: Board, r: int, c: int, dirs: seq<(int, int)>, m: Move)
    requires b.Valid() && InBounds(r, c)
  {
    exists k :: 0 <= k < |dirs| && RayTarget(b, r, c, dirs[k].0, dirs[k].1, m)
  }

  /** The sliding generator yields exactly the moves some direction's ray
      rule allows. */
  lemma {:induction false} SlidingRule(b: Board, r: int, c: int, dirs: seq<(int, int)>)
    requires b.Valid() && InBounds(r, c) && AllUnitSteps(dirs)
    ensures forall m :: m in SlidingMoves(b, r, c, dirs) <==> SlideTarget(b, r, c, dirs, m)
    decreases |dirs|
  {
    if |dirs| > 0 {
      RayRule(b, r, c, dirs[0].0, dirs[0].1);
      SlidingRule(b, r, c, dirs[1..]);
      forall m | SlideTarget(b, r, c, dirs, m)
        ensures m in SlidingMoves(b, r, c, dirs)
      {
        var k :| 0 <= k < |dirs| && RayTarget(b, r, c, dirs[k].0, dirs[k].1, m);
        if k > 0 {
          assert dirs[1..][k - 1] == dirs[k];
        }
      }
      forall m | m in SlidingMoves(b, r, c, dirs)
        ensures SlideTarget(b, r, c, dirs, m)
      {
        if m !in Ray(b, r, c, dirs[0].0, dirs[0].1) {
          assert m in SlidingMoves(b, r, c, dirs[1..]);
          assert SlideTarget(b, r, c, dirs[1..], m);
          var k :| 0 <= k < |dirs[1..]| && RayTarget(b, r, c, dirs[1..][k].0, dirs[1..][k].1, m);
          assert dirs[1..][k] == dirs[k + 1];
        }
      }
    }
  }

  // ---------------------------------------------------------------------
  // The whole board
  // ---------------------------------------------------------------------

  /** The `switch` on the piece standing on (r, c), taken only when it belongs
      to the side to move. */
  function PieceMoves(b: Board, r: int, c: int): seq<Move>
    requires b.Valid() && InBounds(r, c)
  {
    DirectionListsAreUnitSteps();
    var piece := b.grid[r][c];
    if piece.color != b.sideToMove then []
    else
      match piece.kind
      case Pawn => PawnMoves(b, r, c)
      case Knight => StepMoves(b, r, c, KnightOffsets)
      case Bishop => SlidingMoves(b, r, c, BishopDirections)
      case Rook => SlidingMoves(b, r, c, RookDirections)
      case Queen => SlidingMoves(b, r, c, QueenDirections)
      case King => StepMoves(b, r, c, KingOffsets)
      case Empty => []
  }

  /** No offset of the list is the null step. */
  predicate NonZeroOffsets(offs: seq<(int, int)>) {
    forall k :: 0 <= k < |offs| ==> offs[k].0 != 0 || offs[k].1 != 0
  }

  lemma OffsetListsAreNonZero()
    ensures NonZeroOffsets(KnightOffsets) && NonZeroOffsets(KingOffsets)
  {
  }

  /** Moves by non-null offsets have the shape of generated moves. */
  lemma StepMovesAreShaped(b: Board, r: int, c: int, offs: seq<(int, int)>)
    requires b.Valid() && InBounds(r, c) && NonZeroOffsets(offs)
    ensures forall m :: m in StepMoves(b, r, c, offs) ==> MoveShape(b, r, c, m)
  {
    StepRule(b, r, c, offs);
    forall m | m in StepMoves(b, r, c, offs)
      ensures MoveShape(b, r, c, m)
    {
      var k :| 0 <= k < |offs| && m.toRow == r + offs[k].0 && m.toCol == c + offs[k].1;
    }
  }

  /** The moves of one square start there, on a piece of the side to move,
      and have the shape of generated moves; an empty square has none. */
  lemma PieceMovesAreShaped(b: Board, r: int, c: int)
    requires b.Valid() && InBounds(r, c)
    ensures forall m :: m in PieceMoves(b, r, c) ==> MoveShape(b, r, c, m) && b.grid[r][c].color == b.sideToMove
    ensures b.grid[r][c].kind == Empty ==> PieceMoves(b, r, c) == []
  {
    var piece := b.grid[r][c];
    if piece.color != b.sideToMove || piece.kind == Empty {
      assert PieceMoves(b, r, c) == [];
    } else if piece.kind == Pawn {
      PawnPieceMovesAreShaped(b, r, c);
    } else if piece.kind in {Knight, King} {
      StepPieceMovesAreShaped(b, r, c);
    } else {
      SlidingPieceMovesAreShaped(b, r, c);
    }
  }

  lemma PawnPieceMovesAreShaped(b: Board, r: int, c: int)
    requires b.Valid() && InBounds(r, c)
    requires b.grid[r][c].color == b.sideToMove && b.grid[r][c].kind == Pawn
    ensures forall m :: m in PieceMoves(b, r, c) ==> MoveShape(b, r, c, m)
  {
    PieceMovesOfPawn(b, r, c);
    PawnRule(b, r, c);
    forall m | m in PieceMoves(b, r, c)
      ensures MoveShape(b, r, c, m)
    {
      assert m in PawnMoves(b, r, c);
    }
  }

  /** The moves of a pawn of the side to move are its pawn moves. */
  lemma PieceMovesOfPawn(b: Board, r: int, c: int)
    requires b.Valid() && InBounds(r, c)
    requires b.grid[r][c].color == b.sideToMove && b.grid[r][c].kind == Pawn
    ensures PieceMoves(b, r, c) == PawnMoves(b, r, c)
  {
  }

  lemma StepPieceMovesAreShaped(b: Board, r: int, c: int)
    requires b.Valid() && InBounds(r, c)
    requires b.grid[r][c].color == b.sideToMove && b.grid[r][c].kind in {Knight, King}
    ensures forall m :: m in PieceMoves(b, r, c) ==> MoveShape(b, r, c, m)
  {
    var offs := if b.grid[r][c].kind == Knight then KnightOffsets else KingOffsets;
    OffsetListsAreNonZero();
    StepMovesAreShaped(b, r, c, offs);
    PieceMovesOfStepper(b, r, c);
  }

  /** The moves of a knight or king of the side to move are the single steps
      along its offsets. */
  lemma PieceMovesOfStepper(b: Board, r: int, c: int)
    requires b.Valid() && InBounds(r, c)
    requires b.grid[r][c].color == b.sideToMove && b.grid[r][c].kind in {Knight, King}
    ensures PieceMoves(b, r, c)
            == StepMoves(b, r, c, if b.grid[r][c].kind == Knight then KnightOffsets else KingOffsets)
  {
  }

  lemma SlidingPieceMovesAreShaped(b: Board, r: int, c: int)
    requires b.Valid() && InBounds(r, c)
    requires b.grid[r][c].color == b.sideToMove && b.grid[r][c].kind in {Bishop, Rook, Queen}
    ensures forall m :: m in PieceMoves(b, r, c) ==> MoveShape(b, r, c, m)
  {
    var kind := b.grid[r][c].kind;
    var dirs := if kind == Bishop then BishopDirections else if kind == Rook then RookDirections else QueenDirections;
    DirectionListsAreUnitSteps();
    SlidingMovesAreShaped(b, r, c, dirs);
    PieceMovesOfSlider(b, r, c);
  }

  /** The moves of a bishop, rook or queen of the side to move are the
      sliding moves along its directions. */
  lemma PieceMovesOfSlider(b: Board, r: int, c: int)
    requires b.Valid() && InBounds(r, c)
    requires b.grid[r][c].color == b.sideToMove && b.grid[r][c].kind in {Bishop, Rook, Queen}
    ensures var kind := b.grid[r][c].kind;
            PieceMoves(b, r, c)
            == SlidingMoves(b, r, c, if kind == Bishop then BishopDirections else if kind == Rook then RookDirections else QueenDirections)
  {
    DirectionListsAreUnitSteps();
  }

  /** The movement rule of the piece on (r, c), as a property of one move:
      only a piece of the side to move has moves, and each kind follows its
      own rule. */
  predicate PieceTarget(b: Board, r: int, c: int, m: Move)
    requires b.Valid() && InBounds(r, c)
  {
    var piece := b.grid[r][c];
    piece.color == b.sideToMove
    && match piece.kind
       case Pawn => PawnTarget(b, r, c, m)
       case Knight => StepTarget(b, r, c, KnightOffsets, m)
       case King => StepTarget(b, r, c, KingOffsets, m)
       case Bishop => SlideTarget(b, r, c, BishopDirections, m)
       case Rook => SlideTarget(b, r, c, RookDirections, m)
       case Queen => SlideTarget(b, r, c, QueenDirections, m)
       case Empty => false
  }

  /** The moves of the piece on (r, c) are exactly those its rule allows. */
  lemma PieceMovesFollowRule(b: Board, r: int, c: int)
    requires b.Valid() && InBounds(r, c)
    ensures forall m :: m in PieceMoves(b, r, c) <==> PieceTarget(b, r, c, m)
  {
    var piece := b.grid[r][c];
    if piece.color != b.sideToMove || piece.kind == Empty {
      assert PieceMoves(b, r, c) == [];
    } else if piece.kind == Pawn {
      PawnFollowsRule(b, r, c);
    } else if piece.kind in {Knight, King} {
      StepperFollowsRule(b, r, c);
    } else {
      SliderFollowsRule(b, r, c);
    }
  }

  lemma PawnFollowsRule(b: Board, r: int, c: int)
    requires b.Valid() && InBounds(r, c)
    requires b.grid[r][c].color == b.sideToMove && b.grid[r][c].kind == Pawn
    ensures forall m :: m in PieceMoves(b, r, c) <==> PieceTarget(b, r, c, m)
  {
    PieceMovesOfPawn(b, r, c);
    PawnRule(b, r, c);
  }

  lemma StepperFollowsRule(b: Board, r: int, c: int)
    requires b.Valid() && InBounds(r, c)
    requires b.grid[r][c].color == b.sideToMove && b.grid[r][c].kind in {Knight, King}
    ensures forall m :: m in PieceMoves(b, r, c) <==> PieceTarget(b, r, c, m)
  {
    PieceMovesOfStepper(b, r, c);
    StepRule(b, r, c, if b.grid[r][c].kind == Knight then KnightOffsets else KingOffsets);
  }

  lemma SliderFollowsRule(b: Board, r: int, c: int)
    requires b.Valid() && InBounds(r, c)
    requires b.grid[r][c].color == b.sideToMove && b.grid[r][c].kind in {Bishop, Rook, Queen}
    ensures forall m :: m in PieceMoves(b, r, c) <==> PieceTarget(b, r, c, m)
  {
    var kind := b.grid[r][c].kind;
    var dirs := if kind == Bishop then BishopDirections else if kind == Rook then RookDirections else QueenDirections;
    DirectionListsAreUnitSteps();
    PieceMovesOfSlider(b, r, c);
    SlidingRule(b, r, c, dirs);
    SliderTarget(b, r, c);
    assert forall m :: m in SlidingMoves(b, r, c, dirs) <==> SlideTarget(b, r, c, dirs, m);
  }

  /** The rule of a bishop, rook or queen is its sliding rule. */
  lemma SliderTarget(b: Board, r: int, c: int)
    requires b.Valid() && InBounds(r, c)
    requires b.grid[r][c].color == b.sideToMove && b.grid[r][c].kind in {Bishop, Rook, Queen}
    ensures var kind := b.grid[r][c].kind;
            var dirs := if kind == Bishop then BishopDirections else if kind == Rook then RookDirections else QueenDirections;
            forall m :: PieceTarget(b, r, c, m) <==> SlideTarget(b, r, c, dirs, m)
  {
  }

  /** `m1` comes from a square no later than `m2`'s in the row-major scan. */
  predicate SourceNotAfter(m1: Move, m2: Move) {
    m1.fromRow < m2.fromRow || (m1.fromRow == m2.fromRow && m1.fromCol <= m2.fromCol)
  }

  /** The moves come in row-major order of their source squares. */
  predicate SourceOrdered(ms: seq<Move>) {
    forall i, j :: 0 <= i < j < |ms| ==> SourceNotAfter(ms[i], ms[j])
  }

  /** A move the generator may produce: both squares on the board, leaving a
      piece of the side to move, with the shape of a generated move. */
  predicate Generated(b: Board, m: Move)
    requires b.Valid()
  {
    MoveInBounds(m) && MoveShape(b, m.fromRow, m.fromCol, m)
    && b.grid[m.fromRow][m.fromCol].color == b.sideToMove
  }

  /** The inner loop of `generateMoves`: columns c, c+1, ..., 7 of row r. */
  function RowScan(b: Board, r: int, c: int): seq<Move>
    requires b.Valid() && 0 <= r < Size && 0 <= c <= Size
    decreases Size - c
  {
    if c == Size then [] else PieceMoves(b, r, c) + RowScan(b, r, c + 1)
  }

  /** The outer loop of `generateMoves`: rows r, r+1, ..., 7. */
  function BoardScan(b: Board, r: int): seq<Move>
    requires b.Valid() && 0 <= r <= Size
    decreases Size - r
  {
    if r == Size then [] else RowScan(b, r, 0) + BoardScan(b, r + 1)
  }

  /** Two ordered runs, the first entirely no later than the second, make an
      ordered run. */
  lemma JoinOrdered(xs: seq<Move>, ys: seq<Move>)
    requires SourceOrdered(xs) && SourceOrdered(ys)
    requires forall x, y :: x in xs && y in ys ==> SourceNotAfter(x, y)
    ensures SourceOrdered(xs + ys)
  {
    var zs := xs + ys;
    forall i, j | 0 <= i < j < |zs|
      ensures SourceNotAfter(zs[i], zs[j])
    {
      if j < |xs| {
        assert zs[i] == xs[i] && zs[j] == xs[j];
      } else if i >= |xs| {
        assert zs[i] == ys[i - |xs|] && zs[j] == ys[j - |xs|];
      } else {
        assert zs[i] in xs && zs[j] in ys;
      }
    }
  }

  /** The scan of row r from column c on yields generated moves from that row,
      from columns c and later, in column order. */
  lemma {:induction false} RowScanProperties(b: Board, r: int, c: int)
    requires b.Valid() && 0 <= r < Size && 0 <= c <= Size
    ensures forall m :: m in RowScan(b, r, c) ==> m.fromRow == r && c <= m.fromCol && Generated(b, m)
    ensures SourceOrdered(RowScan(b, r, c))
    decreases Size - c
  {
    if c < Size {
      var here := PieceMoves(b, r, c);
      var rest := RowScan(b, r, c + 1);
      PieceMovesAreShaped(b, r, c);
      RowScanProperties(b, r, c + 1);
      assert SourceOrdered(here) by {
        forall i, j | 0 <= i < j < |here|
          ensures SourceNotAfter(here[i], here[j])
        {
          assert here[i] in here && here[j] in here;
        }
      }
      JoinOrdered(here, rest);
    }
  }

  /** The scan from row r on yields generated moves from rows r and later, in
      row-major order. */
  lemma {:induction false} BoardScanProperties(b: Board, r: int)
    requires b.Valid() && 0 <= r <= Size
    ensures forall m :: m in BoardScan(b, r) ==> r <= m.fromRow && Generated(b, m)
    ensures SourceOrdered(BoardScan(b, r))
    decreases Size - r
  {
    if r < Size {
      RowScanProperties(b, r, 0);
      BoardScanProperties(b, r + 1);
      JoinOrdered(RowScan(b, r, 0), BoardScan(b, r + 1));
    }
  }

  /** The scan of row r from column c on yields exactly the moves of the
      pieces on columns c, c+1, ..., 7 of that row. */
  lemma {:induction false} RowScanMembers(b: Board, r: int, c: int)
    requires b.Valid() && 0 <= r < Size && 0 <= c <= Size
    ensures forall m :: m in RowScan(b, r, c) <==>
              m.fromRow == r && c <= m.fromCol < Size && m in PieceMoves(b, r, m.fromCol)
    decreases Size - c
  {
    if c < Size {
      var here, rest := PieceMoves(b, r, c), RowScan(b, r, c + 1);
      assert RowScan(b, r, c) == here + rest;
      PieceMovesAreShaped(b, r, c);
      RowScanMembers(b, r, c + 1);
      forall m: Move
        ensures m in here + rest <==> m.fromRow == r && c <= m.fromCol < Size && m in PieceMoves(b, r, m.fromCol)
      {
        if m.fromRow == r && m.fromCol == c {
          assert m in rest ==> c + 1 <= m.fromCol;
        } else {
          assert m !in here;
        }
      }
    }
  }

  /** The scan from row r on yields exactly the moves of the pieces on rows
      r, r+1, ..., 7. */
  lemma {:induction false} BoardScanMembers(b: Board, r: int)
    requires b.Valid() && 0 <= r <= Size
    ensures forall m :: m in BoardScan(b, r) <==>
              r <= m.fromRow < Size && 0 <= m.fromCol < Size && m in PieceMoves(b, m.fromRow, m.fromCol)
    decreases Size - r
  {
    if r < Size {
      RowScanMembers(b, r, 0);
      BoardScanMembers(b, r + 1);
    }
  }

  /** Every move of a list lies on the board. */
  predicate AllInBounds(ms: seq<Move>) {
    forall i :: 0 <= i < |ms| ==> MoveInBounds(ms[i])
  }

  /** `generateMoves`: every move of every piece of the side to move, in
      row-major order of the source squares. */
  function GenerateMoves(b: Board): seq<Move>
    requires b.Valid()
  {
    BoardScan(b, 0)
  }

  /** Each generated move starts on a square of the mover's colour and ends
      on a different square of the board that is free for the mover, and the
      moves come in row-major order of their source squares. */
  lemma GeneratedMoveFeatures(b: Board)
    requires b.Valid()
    ensures forall m :: m in GenerateMoves(b) ==>
              MoveInBounds(m) && !IsNoMove(m) && m.score == 0
              && b.grid[m.fromRow][m.fromCol].color == b.sideToMove
              && Enterable(b, m.fromRow, m.fromCol, m.toRow, m.toCol)
    ensures SourceOrdered(GenerateMoves(b))
  {
    BoardScanProperties(b, 0);
  }

  /** Every generated move lies on the board. */
  lemma GeneratedMovesInBounds(b: Board)
    requires b.Valid()
    ensures AllInBounds(GenerateMoves(b))
  {
    BoardScanProperties(b, 0);
    var ms := GenerateMoves(b);
    assert forall i :: 0 <= i < |ms| ==> ms[i] in ms;
  }

  /** A move is generated exactly when it is one of the moves of the piece
      on its source square: nothing is lost or added by the scan. */
  lemma GeneratedMovesArePieceMoves(b: Board)
    requires b.Valid()
    ensures forall m :: m in GenerateMoves(b) <==>
              InBounds(m.fromRow, m.fromCol) && m in PieceMoves(b, m.fromRow, m.fromCol)
  {
    BoardScanMembers(b, 0);
  }

  /** `generateMoves` is complete and sound for the movement rules: a move is
      generated exactly when it leaves a square of the board and the rule of
      the piece standing there allows it. */
  lemma GenerationFollowsRules(b: Board)
    requires b.Valid()
    ensures forall m :: m in GenerateMoves(b) <==>
              InBounds(m.fromRow, m.fromCol) && PieceTarget(b, m.fromRow, m.fromCol, m)
  {
    GeneratedMovesArePieceMoves(b);
    forall m: Move | InBounds(m.fromRow, m.fromCol)
      ensures m in PieceMoves(b, m.fromRow, m.fromCol) <==> PieceTarget(b, m.fromRow, m.fromCol, m)
    {
      PieceMovesFollowRule(b, m.fromRow, m.fromCol);
    }
  }

  /** A move starts on a piece of the side to move and ends on another
      square of the board holding no piece of that side. */
  predicate PseudoLegal(b: Board, m: Move)
    requires b.Valid()
  {
    MoveInBounds(m) && !IsNoMove(m)
    && b.grid[m.fromRow][m.fromCol].color == b.sideToMove
    && b.grid[m.fromRow][m.fromCol].kind != Empty
    && b.grid[m.toRow][m.toCol].color != b.sideToMove
  }

  /** On a well-formed board every generated move is pseudo-legal. */
  lemma GeneratedMovesArePseudoLegal(b: Board)
    requires b.WellFormed()
    ensures forall m :: m in GenerateMoves(b) ==> PseudoLegal(b, m)
  {
    forall m | m in GenerateMoves(b)
      ensures PseudoLegal(b, m)
    {
      GeneratedMoveIsPseudoLegal(b, m);
    }
  }

  lemma GeneratedMoveIsPseudoLegal(b: Board, m: Move)
    requires b.WellFormed() && m in GenerateMoves(b)
    ensures PseudoLegal(b, m)
  {
    GeneratedMoveFeatures(b);
    MoverOwnsSource(b, m);
  }

  lemma MoverOwnsSource(b: Board, m: Move)
    requires b.WellFormed() && MoveInBounds(m)
    requires b.grid[m.fromRow][m.fromCol].color == b.sideToMove
    requires Enterable(b, m.fromRow, m.fromCol, m.toRow, m.toCol)
    ensures b.grid[m.toRow][m.toCol].color != b.sideToMove
    ensures b.grid[m.fromRow][m.fromCol].kind != Empty
  {
    assert WellFormedPiece(b.grid[m.toRow][m.toCol]);
    assert WellFormedPiece(b.grid[m.fromRow][m.fromCol]);
  }
}
