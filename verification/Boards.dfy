/** The board state and the two moves that change it in place: the opening
    layout, `makeMove` with auto-promotion and the heuristic `undoMove`
    (Board.cpp). Boards are values here; each operation returns the board
    the C++ code leaves behind. */
module Boards {
  import opened ChessTypes

  /** Rows and columns run over 0..Size-1. */
  const Size: int := 8

  /** The source's `inBounds`: both coordinates lie in 0..7. */
  predicate InBounds(r: int, c: int) {
    0 <= r < Size && 0 <= c < Size
  }

  /** `sideToMove = (sideToMove == WHITE ? BLACK : WHITE)`: every value other
      than White, NoColor included, becomes White. */
  function Flip(c: Color): (d: Color)
    ensures d != NoColor
    ensures c != NoColor ==> d != c
  {
    if c == White then Black else White
  }

  /** The row on which a pawn of colour `c` is promoted when it arrives there. */
  predicate OnPromotionRank(c: Color, row: int) {
    (c == White && row == 7) || (c == Black && row == 0)
  }

  datatype Board = Board(grid: seq<seq<Piece>>, sideToMove: Color) {

    /** The grid is 8 by 8, as the fixed C++ array is. */
    predicate Valid() {
      |grid| == Size && forall r :: 0 <= r < Size ==> |grid[r]| == Size
    }

    /** Every square holds either the default empty piece or a coloured piece,
        and one of the two sides is to move. */
    predicate WellFormed() {
      Valid() && sideToMove != NoColor
      && forall r, c :: 0 <= r < Size && 0 <= c < Size ==> WellFormedPiece(grid[r][c])
    }

    function At(r: int, c: int): Piece
      requires Valid() && InBounds(r, c)
    {
      grid[r][c]
    }
  }

  /** Both squares of a move lie on the board. */
  predicate MoveInBounds(m: Move) {
    InBounds(m.fromRow, m.fromCol) && InBounds(m.toRow, m.toCol)
  }

  /** Assignment to one square of an 8-by-8 grid. */
  function SetSquare(g: seq<seq<Piece>>, r: int, c: int, p: Piece): (g': seq<seq<Piece>>)
    requires Board(g, White).Valid() && InBounds(r, c)
    ensures Board(g', White).Valid()
    ensures g'[r][c] == p
    ensures forall i, j :: InBounds(i, j) && (i != r || j != c) ==> g'[i][j] == g[i][j]
  {
    g[r := g[r][c := p]]
  }

  // ---------------------------------------------------------------------
  // Opening layout
  // ---------------------------------------------------------------------

  /** The piece kinds along a back rank, from column 0 to column 7. */
  function BackRank(c: int): PieceType
    requires 0 <= c < Size
  {
    [Rook, Knight, Bishop, Queen, King, Bishop, Knight, Rook][c]
  }

  /** What `initBoard` leaves on square (r, c): the cleared board with pawns on
      rows 1 and 6 and the pieces on rows 0 and 7. */
  function InitialSquare(r: int, c: int): Piece
    requires InBounds(r, c)
  {
    if r == 1 then Piece(Pawn, White)
    else if r == 6 then Piece(Pawn, Black)
    else if r == 0 then Piece(BackRank(c), White)
    else if r == 7 then Piece(BackRank(c), Black)
    else EmptyPiece
  }

  /** The grid with every square holding the default empty piece. */
  function ClearedGrid(): (g: seq<seq<Piece>>)
    ensures Board(g, White).Valid()
    ensures forall r, c :: InBounds(r, c) ==> g[r][c] == EmptyPiece
  {
    var empty := [EmptyPiece, EmptyPiece, EmptyPiece, EmptyPiece, EmptyPiece, EmptyPiece, EmptyPiece, EmptyPiece];
    [empty, empty, empty, empty, empty, empty, empty, empty]
  }

  /** The opening grid, square by square. */
  function InitialGrid(): (g: seq<seq<Piece>>)
    ensures Board(g, White).Valid()
    ensures forall r, c :: InBounds(r, c) ==> g[r][c] == InitialSquare(r, c)
  {
    seq(Size, r requires 0 <= r < Size => seq(Size, c requires 0 <= c < Size => InitialSquare(r, c)))
  }

  /** A grid part-way through `initBoard`: the pawns are in place, the
      back-rank pieces of the kinds in `placed` are written, and every other
      square is empty. */
  ghost predicate PlacedSoFar(g: seq<seq<Piece>>, placed: set<PieceType>)
    requires Board(g, White).Valid()
  {
    forall r, c :: InBounds(r, c) ==>
      g[r][c] == (if r == 1 || r == 6 || ((r == 0 || r == 7) && BackRank(c) in placed)
                  then InitialSquare(r, c) else EmptyPiece)
  }

  /** `initBoard`, step by step on whatever grid the board held before: clear
      all 64 squares, put the pawns on rows 1 and 6 column by column, then
      make the sixteen back-rank assignments in the source's order. The
      result is the opening grid. */
  method InitBoard(prior: seq<seq<Piece>>) returns (g: seq<seq<Piece>>)
    requires Board(prior, White).Valid()
    ensures Board(g, White).Valid()
    ensures forall r, c :: InBounds(r, c) ==> g[r][c] == InitialSquare(r, c)
    ensures g == InitialGrid()
  {
    g := ClearSquares(prior);
    g := PlacePawns(g);
    g := PlaceRooks(g);
    g := PlaceKnights(g);
    g := PlaceBishops(g);
    g := PlaceQueens(g);
    g := PlaceKings(g);
    assert forall c :: 0 <= c < Size ==> BackRank(c) in {Rook, Knight, Bishop, Queen, King};
    BoardExtensionality(Board(g, White), Board(InitialGrid(), White));
  }

  /** The clearing loops of `initBoard`: every square gets the empty piece. */
  method ClearSquares(prior: seq<seq<Piece>>) returns (g: seq<seq<Piece>>)
    requires Board(prior, White).Valid()
    ensures Board(g, White).Valid()
    ensures forall i, j :: InBounds(i, j) ==> g[i][j] == EmptyPiece
  {
    g := prior;
    var r := 0;
    while r < Size
      invariant 0 <= r <= Size && Board(g, White).Valid()
      invariant forall i, j :: InBounds(i, j) && i < r ==> g[i][j] == EmptyPiece
    {
      var c := 0;
      while c < Size
        invariant 0 <= c <= Size && Board(g, White).Valid()
        invariant forall i, j :: InBounds(i, j) && (i < r || (i == r && j < c)) ==> g[i][j] == EmptyPiece
      {
        g := SetSquare(g, r, c, EmptyPiece);
        c := c + 1;
      }
      r := r + 1;
    }
  }

  /** The pawn loop of `initBoard`: a white pawn on row 1 and a black pawn
      on row 6 of every column of the cleared grid. */
  method PlacePawns(cleared: seq<seq<Piece>>) returns (g: seq<seq<Piece>>)
    requires Board(cleared, White).Valid()
    requires forall i, j :: InBounds(i, j) ==> cleared[i][j] == EmptyPiece
    ensures Board(g, White).Valid() && PlacedSoFar(g, {})
  {
    g := cleared;
    var c := 0;
    while c < Size
      invariant 0 <= c <= Size && Board(g, White).Valid()
      invariant forall i, j :: InBounds(i, j) ==>
                  g[i][j] == (if (i == 1 || i == 6) && j < c then InitialSquare(i, j) else EmptyPiece)
    {
      g := SetSquare(g, 1, c, Piece(Pawn, White));
      g := SetSquare(g, 6, c, Piece(Pawn, Black));
      c := c + 1;
    }
  }

  /** The rook assignments of `initBoard`. */
  method PlaceRooks(g0: seq<seq<Piece>>) returns (g: seq<seq<Piece>>)
    requires Board(g0, White).Valid() && PlacedSoFar(g0, {})
    ensures Board(g, White).Valid() && PlacedSoFar(g, {Rook})
  {
    g := SetSquare(g0, 0, 0, Piece(Rook, White));
    g := SetSquare(g, 0, 7, Piece(Rook, White));
    g := SetSquare(g, 7, 0, Piece(Rook, Black));
    g := SetSquare(g, 7, 7, Piece(Rook, Black));
  }

  /** The knight assignments of `initBoard`. */
  method PlaceKnights(g0: seq<seq<Piece>>) returns (g: seq<seq<Piece>>)
    requires Board(g0, White).Valid() && PlacedSoFar(g0, {Rook})
    ensures Board(g, White).Valid() && PlacedSoFar(g, {Rook, Knight})
  {
    g := SetSquare(g0, 0, 1, Piece(Knight, White));
    g := SetSquare(g, 0, 6, Piece(Knight, White));
    g := SetSquare(g, 7, 1, Piece(Knight, Black));
    g := SetSquare(g, 7, 6, Piece(Knight, Black));
  }

  /** The bishop assignments of `initBoard`. */
  method PlaceBishops(g0: seq<seq<Piece>>) returns (g: seq<seq<Piece>>)
    requires Board(g0, White).Valid() && PlacedSoFar(g0, {Rook, Knight})
    ensures Board(g, White).Valid() && PlacedSoFar(g, {Rook, Knight, Bishop})
  {
    g := SetSquare(g0, 0, 2, Piece(Bishop, White));
    g := SetSquare(g, 0, 5, Piece(Bishop, White));
    g := SetSquare(g, 7, 2, Piece(Bishop, Black));
    g := SetSquare(g, 7, 5, Piece(Bishop, Black));
  }

  /** The queen assignments of `initBoard`. */
  method PlaceQueens(g0: seq<seq<Piece>>) returns (g: seq<seq<Piece>>)
    requires Board(g0, White).Valid() && PlacedSoFar(g0, {Rook, Knight, Bishop})
    ensures Board(g, White).Valid() && PlacedSoFar(g, {Rook, Knight, Bishop, Queen})
  {
    g := SetSquare(g0, 0, 3, Piece(Queen, White));
    g := SetSquare(g, 7, 3, Piece(Queen, Black));
  }

  /** The king assignments of `initBoard`. */
  method PlaceKings(g0: seq<seq<Piece>>) returns (g: seq<seq<Piece>>)
    requires Board(g0, White).Valid() && PlacedSoFar(g0, {Rook, Knight, Bishop, Queen})
    ensures Board(g, White).Valid() && PlacedSoFar(g, {Rook, Knight, Bishop, Queen, King})
  {
    g := SetSquare(g0, 0, 4, Piece(King, White));
    g := SetSquare(g, 7, 4, Piece(King, Black));
  }

  /** The constructor: the opening layout with White to move. Rows 2 to 5 are
      empty, rows 1 and 6 are all pawns, and each side has exactly one king,
      on (0,4) for White and (7,4) for Black. */
  function NewBoard(): (b: Board)
    ensures b.WellFormed()
    ensures b.sideToMove == White
    ensures forall r, c :: InBounds(r, c) && 2 <= r <= 5 ==> b.grid[r][c] == EmptyPiece
    ensures forall c :: 0 <= c < Size ==> b.grid[1][c] == Piece(Pawn, White) && b.grid[6][c] == Piece(Pawn, Black)
    ensures forall r, c :: InBounds(r, c) ==> (b.grid[r][c] == Piece(King, White) <==> r == 0 && c == 4)
    ensures forall r, c :: InBounds(r, c) ==> (b.grid[r][c] == Piece(King, Black) <==> r == 7 && c == 4)
  {
    Board(InitialGrid(), White)
  }

  /** The opening layout is colour-symmetric: row 7 - r is row r with the
      colours exchanged. */
  function SwapColor(p: Piece): Piece {
    match p.color
    case White => p.(color := Black)
    case Black => p.(color := White)
    case NoColor => p
  }

  lemma InitialIsMirrored()
    ensures forall r, c :: InBounds(r, c) ==> NewBoard().grid[7 - r][c] == SwapColor(NewBoard().grid[r][c])
  {
  }

  // ---------------------------------------------------------------------
  // Making and unmaking moves
  // ---------------------------------------------------------------------

  /** The piece that ends up on the destination: a pawn arriving on its
      promotion rank becomes a queen of its colour, anything else is
      unchanged. */
  function Promoted(p: Piece, toRow: int): Piece {
    if p.kind == Pawn && OnPromotionRank(p.color, toRow) then Piece(Queen, p.color) else p
  }

  /** `makeMove`: copy the source onto the destination, clear the source,
      promote a pawn that reached its last rank, and flip the side to move.
      The steps are taken in the source's order, so a move whose squares
      coincide clears that square. */
  function MakeMove(b: Board, m: Move): (r: Board)
    requires b.Valid() && MoveInBounds(m)
    ensures r.Valid()
    ensures r.sideToMove == Flip(b.sideToMove)
    ensures r.grid[m.fromRow][m.fromCol] == EmptyPiece
    ensures !IsNoMove(m) ==> r.grid[m.toRow][m.toCol] == Promoted(b.grid[m.fromRow][m.fromCol], m.toRow)
    ensures forall i, j :: InBounds(i, j) && !(i == m.fromRow && j == m.fromCol) && !(i == m.toRow && j == m.toCol)
              ==> r.grid[i][j] == b.grid[i][j]
  {
    var src := b.grid[m.fromRow][m.fromCol];
    var g1 := SetSquare(b.grid, m.toRow, m.toCol, src);
    var g2 := SetSquare(g1, m.fromRow, m.fromCol, EmptyPiece);
    var dst := g2[m.toRow][m.toCol];
    var g3 := if dst.kind == Pawn && ((dst.color == White && m.toRow == 7) || (dst.color == Black && m.toRow == 0))
              then SetSquare(g2, m.toRow, m.toCol, dst.(kind := Queen))
              else g2;
    Board(g3, if b.sideToMove == White then Black else White)
  }

  /** A move keeps every square well formed, and a well-formed side to move
      stays well formed. */
  lemma MakeMoveKeepsWellFormed(b: Board, m: Move)
    requires b.WellFormed() && MoveInBounds(m)
    ensures MakeMove(b, m).WellFormed()
  {
    var r := MakeMove(b, m);
    forall i, j | InBounds(i, j)
      ensures WellFormedPiece(r.grid[i][j])
    {
      if i == m.toRow && j == m.toCol && !IsNoMove(m) {
        assert WellFormedPiece(b.grid[m.fromRow][m.fromCol]);
      }
    }
  }

  /** The piece the heuristic revert puts back on the source: a queen standing
      on what would be its colour's promotion rank is taken to have been a
      pawn, whatever it was before the move. */
  function Demoted(p: Piece, toRow: int): Piece {
    if p.kind == Queen && OnPromotionRank(p.color, toRow) then Piece(Pawn, p.color) else p
  }

  /** `undoMove(m, captured)`: copy the destination back to the source, put
      `captured` on the destination, demote a queen on its own promotion rank
      to a pawn, and flip the side to move. */
  function UndoMove(b: Board, m: Move, captured: Piece): (r: Board)
    requires b.Valid() && MoveInBounds(m)
    ensures r.Valid()
    ensures r.sideToMove == Flip(b.sideToMove)
    ensures !IsNoMove(m) ==> r.grid[m.fromRow][m.fromCol] == Demoted(b.grid[m.toRow][m.toCol], m.toRow)
    ensures !IsNoMove(m) ==> r.grid[m.toRow][m.toCol] == captured
    ensures IsNoMove(m) ==> r.grid[m.toRow][m.toCol] == Demoted(captured, m.toRow)
    ensures forall i, j :: InBounds(i, j) && !(i == m.fromRow && j == m.fromCol) && !(i == m.toRow && j == m.toCol)
              ==> r.grid[i][j] == b.grid[i][j]
  {
    var moved := b.grid[m.toRow][m.toCol];
    var g1 := SetSquare(b.grid, m.fromRow, m.fromCol, moved);
    var g2 := SetSquare(g1, m.toRow, m.toCol, captured);
    var src := g2[m.fromRow][m.fromCol];
    var g3 := if src.kind == Queen && ((m.toRow == 7 && src.color == White) || (m.toRow == 0 && src.color == Black))
              then SetSquare(g2, m.fromRow, m.fromCol, src.(kind := Pawn))
              else g2;
    Board(g3, if b.sideToMove == White then Black else White)
  }

  /** The one kind of move the heuristic revert cannot undo: a queen that
      already was a queen arriving on its own colour's promotion rank. */
  predicate QueenToOwnLastRank(b: Board, m: Move)
    requires b.Valid() && MoveInBounds(m)
  {
    var p := b.grid[m.fromRow][m.fromCol];
    p.kind == Queen && OnPromotionRank(p.color, m.toRow)
  }

  /** Two valid boards are equal when every square and the side to move agree. */
  lemma BoardExtensionality(a: Board, b: Board)
    requires a.Valid() && b.Valid() && a.sideToMove == b.sideToMove
    requires forall i, j :: InBounds(i, j) ==> a.grid[i][j] == b.grid[i][j]
    ensures a == b
  {
    forall i | 0 <= i < Size
      ensures a.grid[i] == b.grid[i]
    {
      assert |a.grid[i]| == |b.grid[i]| == Size;
      forall j | 0 <= j < Size
        ensures a.grid[i][j] == b.grid[i][j]
      {
        assert InBounds(i, j);
      }
    }
    assert |a.grid| == |b.grid| == Size;
    assert a.grid == b.grid;
  }

  /** `undoMove(m, captured)` straight after `makeMove(m)`, with `captured` the
      destination's prior content, gives back the original board exactly when
      the move is not a queen landing on its own promotion rank (which comes
      back as a pawn) and a real side was to move. */
  lemma MakeUndoRoundTrip(b: Board, m: Move)
    requires b.Valid() && MoveInBounds(m)
    ensures UndoMove(MakeMove(b, m), m, b.grid[m.toRow][m.toCol]) == b
            <==> !QueenToOwnLastRank(b, m) && b.sideToMove != NoColor
  {
    var after := MakeMove(b, m);
    var back := UndoMove(after, m, b.grid[m.toRow][m.toCol]);
    var p := b.grid[m.fromRow][m.fromCol];
    if !QueenToOwnLastRank(b, m) && b.sideToMove != NoColor {
      forall i, j | InBounds(i, j)
        ensures back.grid[i][j] == b.grid[i][j]
      {
        if i == m.fromRow && j == m.fromCol && !IsNoMove(m) {
          assert back.grid[i][j] == Demoted(Promoted(p, m.toRow), m.toRow);
        }
      }
      BoardExtensionality(back, b);
    } else if QueenToOwnLastRank(b, m) {
      assert back.grid[m.fromRow][m.fromCol] == Piece(Pawn, p.color);
    } else {
      assert back.sideToMove != b.sideToMove;
    }
  }

  /** Whatever is passed as `captured`, make followed by undo gives the side
      to move back whenever a real side was to move. */
  lemma MakeUndoRestoresSide(b: Board, m: Move, captured: Piece)
    requires b.Valid() && MoveInBounds(m) && b.sideToMove != NoColor
    ensures UndoMove(MakeMove(b, m), m, captured).sideToMove == b.sideToMove
  {
  }

  /** A concrete input on which the revert is wrong: a lone White queen on
      (6,0) moves to (7,0); after make and undo (6,0) holds a White pawn. */
  lemma UndoMoveDemotesQueen()
    ensures var g := SetSquare(ClearedGrid(), 6, 0, Piece(Queen, White));
            var b := Board(g, White);
            var m := NewMove(6, 0, 7, 0);
            b.Valid() && UndoMove(MakeMove(b, m), m, EmptyPiece).grid[6][0] == Piece(Pawn, White)
            && b.grid[6][0] == Piece(Queen, White)
  {
    var g := SetSquare(ClearedGrid(), 6, 0, Piece(Queen, White));
    var b := Board(g, White);
    var m := NewMove(6, 0, 7, 0);
    assert QueenToOwnLastRank(b, m);
    MakeUndoRoundTrip(b, m);
  }

  // ---------------------------------------------------------------------
  // Corrected undo: the promotion is recorded, not guessed
  // ---------------------------------------------------------------------

  /** What a caller keeps in order to revert a move: the destination's prior
      content and whether the move promoted a pawn. */
  datatype UndoRecord = UndoRecord(captured: Piece, promoted: bool)

  /** `makeMove` together with the record needed to revert it. The promotion
      flag is set exactly when a pawn moved to another square on its
      promotion rank. */
  function MakeMoveTracked(b: Board, m: Move): (r: (Board, UndoRecord))
    requires b.Valid() && MoveInBounds(m)
    ensures r.0 == MakeMove(b, m)
    ensures r.1.captured == b.grid[m.toRow][m.toCol]
    ensures r.1.promoted <==>
              (!IsNoMove(m) && b.grid[m.fromRow][m.fromCol].kind == Pawn
               && OnPromotionRank(b.grid[m.fromRow][m.fromCol].color, m.toRow))
  {
    var p := b.grid[m.fromRow][m.fromCol];
    (MakeMove(b, m), UndoRecord(b.grid[m.toRow][m.toCol], !IsNoMove(m) && Promoted(p, m.toRow) != p))
  }

  /** The revert driven by the record: it demotes only a piece that really
      was promoted by the move. */
  function UndoMoveTracked(b: Board, m: Move, rec: UndoRecord): (r: Board)
    requires b.Valid() && MoveInBounds(m)
    ensures r.Valid()
    ensures r.sideToMove == Flip(b.sideToMove)
    ensures !IsNoMove(m) ==> r.grid[m.toRow][m.toCol] == rec.captured
    ensures forall i, j :: InBounds(i, j) && !(i == m.fromRow && j == m.fromCol) && !(i == m.toRow && j == m.toCol)
              ==> r.grid[i][j] == b.grid[i][j]
  {
    var moved := b.grid[m.toRow][m.toCol];
    var g1 := SetSquare(b.grid, m.fromRow, m.fromCol, moved);
    var g2 := SetSquare(g1, m.toRow, m.toCol, rec.captured);
    var g3 := if rec.promoted then SetSquare(g2, m.fromRow, m.fromCol, moved.(kind := Pawn)) else g2;
    Board(g3, if b.sideToMove == White then Black else White)
  }

  /** With the record, make followed by undo restores every board on which a
      real side is to move, queens on their last rank included. */
  lemma TrackedRoundTrip(b: Board, m: Move)
    requires b.Valid() && MoveInBounds(m) && b.sideToMove != NoColor
    ensures var (after, rec) := MakeMoveTracked(b, m);
            UndoMoveTracked(after, m, rec) == b
  {
    var (after, rec) := MakeMoveTracked(b, m);
    var back := UndoMoveTracked(after, m, rec);
    var p := b.grid[m.fromRow][m.fromCol];
    forall i, j | InBounds(i, j)
      ensures back.grid[i][j] == b.grid[i][j]
    {
      if i == m.fromRow && j == m.fromCol {
        if IsNoMove(m) {
          assert back.grid[i][j] == rec.captured;
        } else {
          assert after.grid[m.toRow][m.toCol] == Promoted(p, m.toRow);
        }
      }
    }
    BoardExtensionality(back, b);
  }
}
