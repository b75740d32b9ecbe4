/** The value types shared by the whole engine: piece kinds, colours,
    pieces and moves (ChessTypes.h). */
module ChessTypes {

  /** The seven piece kinds. `Empty` is the kind of an unoccupied square. */
  datatype PieceType = Empty | Pawn | Knight | Bishop | Rook | Queen | King

  /** The two sides plus `NoColor`, the colour of an unoccupied square. */
  datatype Color = White | Black | NoColor

  /** The integer each `PieceType` enumerator stands for (EMPTY = 0, then
      consecutive values in declaration order). */
  function TypeOrdinal(t: PieceType): (n: nat)
    ensures n < 7
    ensures n == 0 <==> t == Empty
  {
    match t
    case Empty => 0
    case Pawn => 1
    case Knight => 2
    case Bishop => 3
    case Rook => 4
    case Queen => 5
    case King => 6
  }

  /** The integer each `Color` enumerator stands for (WHITE = 0, BLACK = 1,
      NO_COLOR the next value). */
  function ColorOrdinal(c: Color): (n: nat)
    ensures n < 3
    ensures n == 0 <==> c == White
    ensures n == 1 <==> c == Black
  {
    match c
    case White => 0
    case Black => 1
    case NoColor => 2
  }

  /** Every enumerator of each type, in declaration order. */
  const AllPieceTypes: seq<PieceType> := [Empty, Pawn, Knight, Bishop, Rook, Queen, King]
  const AllColors: seq<Color> := [White, Black, NoColor]

  /** The enumerations have exactly seven and three values, numbered
      consecutively from 0 in declaration order. */
  lemma EnumerationsAreComplete()
    ensures |AllPieceTypes| == 7 && |AllColors| == 3
    ensures forall t: PieceType :: t in AllPieceTypes
    ensures forall c: Color :: c in AllColors
    ensures forall i :: 0 <= i < |AllPieceTypes| ==> TypeOrdinal(AllPieceTypes[i]) == i
    ensures forall i :: 0 <= i < |AllColors| ==> ColorOrdinal(AllColors[i]) == i
  {
    forall t: PieceType
      ensures t in AllPieceTypes
    {
      assert AllPieceTypes[TypeOrdinal(t)] == t;
    }
    forall c: Color
      ensures c in AllColors
    {
      assert AllColors[ColorOrdinal(c)] == c;
    }
  }

  /** A piece is just a kind and a colour; it has no identity. */
  datatype Piece = Piece(kind: PieceType, color: Color)

  /** The default-constructed piece, which is how an empty square is stored. */
  const EmptyPiece: Piece := Piece(Empty, NoColor)

  /** An empty square carries no colour and an occupied square carries a real
      one. Every piece the engine ever writes to the board has this shape. */
  predicate WellFormedPiece(p: Piece) {
    (p.kind == Empty) == (p.color == NoColor)
  }

  /** Under the board's convention a square is empty exactly when it holds
      the default piece. */
  lemma EmptyMeansDefault(p: Piece)
    requires WellFormedPiece(p)
    ensures p.kind == Empty <==> p == EmptyPiece
  {
  }

  /** A move request: source square, destination square, and a score field
      that nothing in the engine ever sets. */
  datatype Move = Move(fromRow: int, fromCol: int, toRow: int, toCol: int, score: int)

  /** The `Move` constructor: the four coordinates as given, score 0. */
  function NewMove(fr: int, fc: int, tr: int, tc: int): (m: Move)
    ensures m.fromRow == fr && m.fromCol == fc && m.toRow == tr && m.toCol == tc
    ensures m.score == 0
  {
    Move(fr, fc, tr, tc, 0)
  }

  /** A move whose source and destination coincide; the engine uses such a
      move to say "no move available". */
  predicate IsNoMove(m: Move) {
    m.fromRow == m.toRow && m.fromCol == m.toCol
  }

  /** The default-constructed move: all coordinates 0, so it is a no-move. */
  function DefaultMove(): (m: Move)
    ensures IsNoMove(m)
    ensures m.fromRow == 0 && m.fromCol == 0 && m.score == 0
  {
    NewMove(0, 0, 0, 0)
  }
}
