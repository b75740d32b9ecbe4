/** The static evaluation `evaluateBoard` (Evaluation.cpp): a signed material
    count, positive for White, under a vector of five piece values. */
module Evaluation {
  import opened ChessTypes
  import opened Boards

  /** The tunable piece values. Kings have no value field. */
  datatype EvalParameters = EvalParameters(
    pawnValue: int, knightValue: int, bishopValue: int, rookValue: int, queenValue: int)

  /** The `switch` on the piece kind: a field of the parameters for the five
      valued kinds and 0 for kings and empty squares. */
  function KindValue(p: EvalParameters, k: PieceType): int {
    match k
    case Pawn => p.pawnValue
    case Knight => p.knightValue
    case Bishop => p.bishopValue
    case Rook => p.rookValue
    case Queen => p.queenValue
    case _ => 0
  }

  /** What one square adds to the score: its kind's value, negated when the
      piece is Black. Any other colour, NoColor included, counts for White. */
  function PieceValue(p: EvalParameters, q: Piece): int {
    if q.color == Black then -KindValue(p, q.kind) else KindValue(p, q.kind)
  }

  /** The inner loop: the squares of one row, column 0 first. */
  function RowScore(p: EvalParameters, row: seq<Piece>): int {
    if |row| == 0 then 0 else PieceValue(p, row[0]) + RowScore(p, row[1..])
  }

  /** The outer loop: the rows of the grid, row 0 first. */
  function GridScore(p: EvalParameters, g: seq<seq<Piece>>): int {
    if |g| == 0 then 0 else RowScore(p, g[0]) + GridScore(p, g[1..])
  }

  /** `evaluateBoard`: the row-major sum over all 64 squares. The side to move
      plays no part. */
  function EvaluateBoard(b: Board, p: EvalParameters): int {
    GridScore(p, b.grid)
  }

  // ---------------------------------------------------------------------
  // Reference definition: material balance by piece counts
  // ---------------------------------------------------------------------

  /** The number of pieces of kind `k` in a row that are Black (`black`) or
      not Black (`!black`). */
  function RowCount(row: seq<Piece>, k: PieceType, black: bool): nat {
    if |row| == 0 then 0
    else (if row[0].kind == k && (row[0].color == Black) == black then 1 else 0) + RowCount(row[1..], k, black)
  }

  function GridCount(g: seq<seq<Piece>>, k: PieceType, black: bool): nat {
    if |g| == 0 then 0 else RowCount(g[0], k, black) + GridCount(g[1..], k, black)
  }

  /** White's material minus Black's, kind by kind: each valued kind's value
      times how many more such pieces White has than Black. */
  function MaterialBalance(p: EvalParameters, g: seq<seq<Piece>>): int {
    p.pawnValue * GridSurplus(g, Pawn) + p.knightValue * GridSurplus(g, Knight)
    + p.bishopValue * GridSurplus(g, Bishop) + p.rookValue * GridSurplus(g, Rook)
    + p.queenValue * GridSurplus(g, Queen)
  }

  /** Multiplication distributes over a sum; kept apart so that the proofs
      using it stay linear. */
  lemma Distribute(v: int, x: int, y: int)
    ensures v * (x + y) == v * x + v * y
  {
  }

  /** How many more pieces of kind `k` a row has for White than for Black. */
  function RowSurplus(row: seq<Piece>, k: PieceType): int {
    RowCount(row, k, false) - RowCount(row, k, true)
  }

  /** The surplus of a row is the first square's contribution (+1 for a
      non-Black piece of kind `k`, -1 for a Black one) plus the rest's. */
  lemma RowSurplusStep(row: seq<Piece>, k: PieceType)
    requires |row| > 0
    ensures RowSurplus(row, k) ==
      (if row[0].kind != k then 0 else if row[0].color == Black then -1 else 1) + RowSurplus(row[1..], k)
  {
  }

  /** One square's value spread over the five valued kinds. */
  lemma PieceValueByKind(p: EvalParameters, q: Piece)
    ensures PieceValue(p, q) ==
      p.pawnValue * Sign(q, Pawn) + p.knightValue * Sign(q, Knight) + p.bishopValue * Sign(q, Bishop)
      + p.rookValue * Sign(q, Rook) + p.queenValue * Sign(q, Queen)
  {
  }

  /** +1, -1 or 0: whether `q` is a non-Black or a Black piece of kind `k`. */
  function Sign(q: Piece, k: PieceType): int {
    if q.kind != k then 0 else if q.color == Black then -1 else 1
  }

  lemma {:induction false} RowScoreIsBalance(p: EvalParameters, row: seq<Piece>)
    ensures RowScore(p, row) == RowBalance(p, row)
  {
    if |row| > 0 {
      var q, rest := row[0], row[1..];
      RowScoreIsBalance(p, rest);
      PieceValueByKind(p, q);
      RowSurplusStep(row, Pawn);
      RowSurplusStep(row, Knight);
      RowSurplusStep(row, Bishop);
      RowSurplusStep(row, Rook);
      RowSurplusStep(row, Queen);
      Distribute(p.pawnValue, Sign(q, Pawn), RowSurplus(rest, Pawn));
      Distribute(p.knightValue, Sign(q, Knight), RowSurplus(rest, Knight));
      Distribute(p.bishopValue, Sign(q, Bishop), RowSurplus(rest, Bishop));
      Distribute(p.rookValue, Sign(q, Rook), RowSurplus(rest, Rook));
      Distribute(p.queenValue, Sign(q, Queen), RowSurplus(rest, Queen));
    }
  }

  /** The grid-level surplus: rows add up. */
  function GridSurplus(g: seq<seq<Piece>>, k: PieceType): int {
    GridCount(g, k, false) - GridCount(g, k, true)
  }

  /** The material balance of a single row. */
  function RowBalance(p: EvalParameters, row: seq<Piece>): int {
    p.pawnValue * RowSurplus(row, Pawn) + p.knightValue * RowSurplus(row, Knight)
    + p.bishopValue * RowSurplus(row, Bishop) + p.rookValue * RowSurplus(row, Rook)
    + p.queenValue * RowSurplus(row, Queen)
  }

  /** The balance of a grid is its first row's balance plus the rest's. */
  lemma MaterialBalanceStep(p: EvalParameters, g: seq<seq<Piece>>)
    requires |g| > 0
    ensures MaterialBalance(p, g) == RowBalance(p, g[0]) + MaterialBalance(p, g[1..])
  {
    var row, rest := g[0], g[1..];
    assert forall k :: GridSurplus(g, k) == RowSurplus(row, k) + GridSurplus(rest, k);
    Distribute(p.pawnValue, RowSurplus(row, Pawn), GridSurplus(rest, Pawn));
    Distribute(p.knightValue, RowSurplus(row, Knight), GridSurplus(rest, Knight));
    Distribute(p.bishopValue, RowSurplus(row, Bishop), GridSurplus(rest, Bishop));
    Distribute(p.rookValue, RowSurplus(row, Rook), GridSurplus(rest, Rook));
    Distribute(p.queenValue, RowSurplus(row, Queen), GridSurplus(rest, Queen));
  }

  /** `evaluateBoard` is the material balance: the sum of the valued kinds'
      values over White's pieces minus the same sum over Black's. Kings and
      empty squares contribute nothing. */
  lemma {:induction false} EvaluationIsMaterialBalance(p: EvalParameters, g: seq<seq<Piece>>)
    ensures GridScore(p, g) == MaterialBalance(p, g)
  {
    if |g| > 0 {
      RowScoreIsBalance(p, g[0]);
      EvaluationIsMaterialBalance(p, g[1..]);
      MaterialBalanceStep(p, g);
    }
  }

  // ---------------------------------------------------------------------
  // Colour symmetry
  // ---------------------------------------------------------------------

  /** A row with every piece's colour exchanged. */
  function SwapRow(row: seq<Piece>): (s: seq<Piece>)
    ensures |s| == |row|
  {
    seq(|row|, i requires 0 <= i < |row| => SwapColor(row[i]))
  }

  /** The grid seen from the other side: rows in reverse order, colours
      exchanged. */
  function MirrorGrid(g: seq<seq<Piece>>): (m: seq<seq<Piece>>)
    ensures |m| == |g|
  {
    seq(|g|, r requires 0 <= r < |g| => SwapRow(g[|g| - 1 - r]))
  }

  /** No piece is coloured NoColor unless its square is empty. */
  predicate ColouredPieces(g: seq<seq<Piece>>) {
    forall r, c :: 0 <= r < |g| && 0 <= c < |g[r]| ==> WellFormedPiece(g[r][c])
  }

  lemma {:induction false} SwapRowNegates(p: EvalParameters, row: seq<Piece>)
    requires forall c :: 0 <= c < |row| ==> WellFormedPiece(row[c])
    ensures RowScore(p, SwapRow(row)) == -RowScore(p, row)
  {
    if |row| > 0 {
      assert SwapRow(row)[1..] == SwapRow(row[1..]);
      SwapRowNegates(p, row[1..]);
    }
  }

  lemma {:induction false} GridScoreSnoc(p: EvalParameters, g: seq<seq<Piece>>, row: seq<Piece>)
    ensures GridScore(p, g + [row]) == GridScore(p, g) + RowScore(p, row)
  {
    if |g| == 0 {
      assert (g + [row])[1..] == [];
    } else {
      assert (g + [row])[1..] == g[1..] + [row];
      GridScoreSnoc(p, g[1..], row);
    }
  }

  /** Turning the board round and exchanging the colours negates the
      evaluation, whatever the piece values: the evaluation favours neither
      side. */
  lemma {:induction false} MirrorNegatesEvaluation(p: EvalParameters, g: seq<seq<Piece>>)
    requires ColouredPieces(g)
    ensures GridScore(p, MirrorGrid(g)) == -GridScore(p, g)
  {
    if |g| > 0 {
      var rest := g[1..];
      assert ColouredPieces(rest) by {
        forall r, c | 0 <= r < |rest| && 0 <= c < |rest[r]|
          ensures WellFormedPiece(rest[r][c])
        {
          assert rest[r] == g[r + 1];
        }
      }
      assert MirrorGrid(g) == MirrorGrid(rest) + [SwapRow(g[0])];
      MirrorNegatesEvaluation(p, rest);
      GridScoreSnoc(p, MirrorGrid(rest), SwapRow(g[0]));
      assert forall c :: 0 <= c < |g[0]| ==> WellFormedPiece(g[0][c]);
      SwapRowNegates(p, g[0]);
    }
  }

  /** The opening position evaluates to 0 under every parameter vector. */
  lemma InitialEvaluationIsZero(p: EvalParameters)
    ensures EvaluateBoard(NewBoard(), p) == 0
  {
    var b := NewBoard();
    InitialIsMirrored();
    SymmetricGridIsBalanced(p, b.grid);
  }

  /** An 8-by-8 grid whose row 7 - r is row r with the colours exchanged
      evaluates to 0. */
  lemma SymmetricGridIsBalanced(p: EvalParameters, g: seq<seq<Piece>>)
    requires Board(g, White).WellFormed()
    requires forall r, c :: InBounds(r, c) ==> g[7 - r][c] == SwapColor(g[r][c])
    ensures GridScore(p, g) == 0
  {
    forall r | 0 <= r < Size
      ensures MirrorGrid(g)[r] == g[r]
    {
      var row := MirrorGrid(g)[r];
      assert row == SwapRow(g[7 - r]);
      forall c | 0 <= c < Size
        ensures row[c] == g[r][c]
      {
        assert g[7 - r][c] == SwapColor(g[r][c]);
      }
    }
    assert MirrorGrid(g) == g;
    MirrorNegatesEvaluation(p, g);
  }

  // ---------------------------------------------------------------------
  // Bound
  // ---------------------------------------------------------------------

  /** The largest magnitude among the five piece values. */
  function Magnitude(p: EvalParameters): (m: int)
    ensures 0 <= m
    ensures forall k :: -m <= KindValue(p, k) <= m
  {
    var a := Abs(p.pawnValue);
    var b := Max(a, Abs(p.knightValue));
    var c := Max(b, Abs(p.bishopValue));
    var d := Max(c, Abs(p.rookValue));
    Max(d, Abs(p.queenValue))
  }

  function Abs(x: int): int {
    if x < 0 then -x else x
  }

  /** `std::max` and `std::min` on two integers. */
  function Max(x: int, y: int): int {
    if x < y then y else x
  }

  function Min(x: int, y: int): int {
    if y < x then y else x
  }

  /** One more factor of `m`, kept apart so that the proofs using it stay
      linear. */
  lemma MultiplyStep(n: int, m: int)
    ensures n * m == (n - 1) * m + m
  {
  }

  /** `n` pieces, none worth more than `m`: the score stays within n * m. */
  lemma {:induction false} RowScoreBound(p: EvalParameters, row: seq<Piece>, m: int)
    requires m == Magnitude(p)
    ensures -(|row| * m) <= RowScore(p, row) <= |row| * m
  {
    if |row| > 0 {
      var n, v, rest := |row|, PieceValue(p, row[0]), RowScore(p, row[1..]);
      RowScoreBound(p, row[1..], m);
      assert -m <= v <= m;
      assert -((n - 1) * m) <= rest <= (n - 1) * m;
      MultiplyStep(n, m);
      assert RowScore(p, row) == v + rest;
    }
  }

  lemma {:induction false} GridScoreBound(p: EvalParameters, g: seq<seq<Piece>>, w: int)
    requires w == Size * Magnitude(p)
    requires forall r :: 0 <= r < |g| ==> |g[r]| == Size
    ensures -(|g| * w) <= GridScore(p, g) <= |g| * w
  {
    if |g| > 0 {
      var n, v, rest := |g|, RowScore(p, g[0]), GridScore(p, g[1..]);
      GridScoreBound(p, g[1..], w);
      RowScoreBound(p, g[0], Magnitude(p));
      assert -w <= v <= w;
      assert -((n - 1) * w) <= rest <= (n - 1) * w;
      MultiplyStep(n, w);
      assert GridScore(p, g) == v + rest;
    }
  }

  /** No board evaluates beyond 64 times the largest piece value. */
  lemma EvaluationBound(b: Board, p: EvalParameters)
    requires b.Valid()
    ensures -(64 * Magnitude(p)) <= EvaluateBoard(b, p) <= 64 * Magnitude(p)
  {
    GridScoreBound(p, b.grid, Size * Magnitude(p));
  }
}
