/** The search of Minimax.cpp: `alphaBeta` is the tree search of module
    TreeSearch run on the tree of generated moves, and `findBestMove` scores
    each root move with a full window. The tree is built from the engine's
    operations passed as values (`Rules`), so that the proofs about it hold
    for any move generator, successor and evaluation; `Engine` supplies the
    engine's own. Each child is the board `makeMove` produces; the in-place
    make/undo discipline of the C++ code is modelled in module
    InPlaceSearch. */
module Search {
  import opened ChessTypes
  import opened Boards
  import opened MoveGen
  import opened Evaluation
  import opened TreeSearch

  /** The half-width of the window every root move is searched with. */
  const RootWindow: int := 1000000

  /** The operations of the engine the search calls: the move list of a
      position, the position a move leads to, the heuristic revert of a move
      given the piece it captured, and the static evaluation. */
  datatype Rules = Rules(moves: Board -> seq<Move>,
                         play: (Board, Move) -> Board,
                         undo: (Board, Move, Piece) -> Board,
                         eval: Board -> int)

  // ---------------------------------------------------------------------
  // The engine's operations
  // ---------------------------------------------------------------------

  /** `generateMoves`; a board that is not 8x8 has no moves. */
  function MoveList(b: Board): seq<Move> {
    if b.Valid() then GenerateMoves(b) else []
  }

  /** `makeMove`; a board that is not 8x8, or a move off the board, leaves
      the board as it is. */
  function Successor(b: Board, m: Move): Board {
    if b.Valid() && MoveInBounds(m) then MakeMove(b, m) else b
  }

  /** `undoMove`, extended in the same way. */
  function Predecessor(b: Board, m: Move, captured: Piece): Board {
    if b.Valid() && MoveInBounds(m) then UndoMove(b, m, captured) else b
  }

  /** The engine with evaluation weights `p`. */
  function Engine(p: EvalParameters): Rules {
    Rules(MoveList, Successor, Predecessor, b => EvaluateBoard(b, p))
  }

  /** On an 8x8 board the engine's operations are the C++ functions, every
      generated move lies on the board, and a move or its revert gives an
      8x8 board again: the extension to other boards is never used. */
  lemma EngineOperations(p: EvalParameters, b: Board)
    requires b.Valid()
    ensures Engine(p).moves(b) == GenerateMoves(b) && AllInBounds(Engine(p).moves(b))
    ensures Engine(p).eval(b) == EvaluateBoard(b, p)
    ensures forall m :: MoveInBounds(m) ==> Engine(p).play(b, m) == MakeMove(b, m) && MakeMove(b, m).Valid()
    ensures forall m, c :: MoveInBounds(m) ==> Engine(p).undo(b, m, c) == UndoMove(b, m, c) && UndoMove(b, m, c).Valid()
  {
    GeneratedMovesInBounds(b);
  }

  // ---------------------------------------------------------------------
  // The searched tree
  // ---------------------------------------------------------------------

  /** The tree `alphaBeta(b, depth, ...)` explores: a leaf holding the static
      evaluation at depth 0 or when the side to move has no move, otherwise a
      node, maximising exactly when White is to move, with one child per
      move, in generation order, searched one ply shallower. */
  function GameTree(r: Rules, b: Board, depth: nat): (t: Tree)
    ensures t.Node? ==> |t.children| == |r.moves(b)|
    decreases depth, 1, 0
  {
    if depth == 0 then Leaf(r.eval(b))
    else
      var moves := r.moves(b);
      if |moves| == 0 then Leaf(r.eval(b))
      else Node(b.sideToMove == White, Subtrees(r, b, moves, 0, depth))
  }

  /** The trees below moves i, i+1, ... of the list, one ply shallower. */
  function Subtrees(r: Rules, b: Board, moves: seq<Move>, i: nat, depth: nat): (ts: seq<Tree>)
    requires i <= |moves| && depth >= 1
    ensures |ts| == |moves| - i
    decreases depth, 0, |moves| - i
  {
    if i == |moves| then [] else [GameTree(r, r.play(b, moves[i]), depth - 1)] + Subtrees(r, b, moves, i + 1, depth)
  }

  lemma {:induction false} SubtreeAt(r: Rules, b: Board, moves: seq<Move>, i: nat, depth: nat, j: nat)
    requires i <= j < |moves| && depth >= 1
    ensures Subtrees(r, b, moves, i, depth)[j - i] == GameTree(r, r.play(b, moves[j]), depth - 1)
    decreases j - i
  {
    if i < j {
      SubtreeAt(r, b, moves, i + 1, depth, j);
    }
  }

  /** The shape of the tree: a leaf with the static evaluation exactly at
      depth 0 or without moves; otherwise a node for the side to move whose
      child j is the tree of the position after move j, one ply shallower. */
  lemma ChildTree(r: Rules, b: Board, depth: nat, j: nat)
    ensures var t := GameTree(r, b, depth);
            (t.Leaf? <==> depth == 0 || |r.moves(b)| == 0)
            && (t.Leaf? ==> t.value == r.eval(b))
            && (t.Node? ==> t.maximise == (b.sideToMove == White))
            && (t.Node? && j < |r.moves(b)| ==>
                  t.children[j] == GameTree(r, r.play(b, r.moves(b)[j]), depth - 1))
  {
    if depth >= 1 && j < |r.moves(b)| {
      SubtreeAt(r, b, r.moves(b), 0, depth, j);
    }
  }

  // ---------------------------------------------------------------------
  // alphaBeta
  // ---------------------------------------------------------------------

  /** `alphaBeta(b, depth, alpha, beta)`. The recursion of the source runs on
      `depth - 1`, so the tree, and the search, are finite for every depth. */
  function AlphaBeta(b: Board, depth: nat, alpha: int, beta: int, p: EvalParameters): int
    requires b.Valid()
  {
    SearchTree(GameTree(Engine(p), b, depth), alpha, beta)
  }

  /** Every static evaluation the search can reach lies strictly between the
      sentinels. */
  predicate LeavesInside(b: Board, depth: nat, p: EvalParameters)
    requires b.Valid()
  {
    Inside(GameTree(Engine(p), b, depth))
  }

  /** The plain minimax value of the same tree, for a tree whose leaves lie
      strictly between the sentinels. */
  function Minimax(b: Board, depth: nat, p: EvalParameters): int
    requires b.Valid() && LeavesInside(b, depth, p)
  {
    InsideIsProper(GameTree(Engine(p), b, depth));
    MinimaxValue(GameTree(Engine(p), b, depth))
  }

  /** At depth 0, and on a board whose side to move has no move, `alphaBeta`
      returns the static evaluation whatever the window. Elsewhere it is
      fail-soft with respect to minimax for every window alpha < beta. */
  lemma AlphaBetaIsFailSoft(b: Board, depth: nat, alpha: int, beta: int, p: EvalParameters)
    requires b.Valid()
    ensures depth == 0 || |GenerateMoves(b)| == 0 ==> AlphaBeta(b, depth, alpha, beta, p) == EvaluateBoard(b, p)
    ensures alpha < beta && LeavesInside(b, depth, p) ==>
              FailSoft(AlphaBeta(b, depth, alpha, beta, p), Minimax(b, depth, p), alpha, beta)
  {
    EngineOperations(p, b);
    ChildTree(Engine(p), b, depth, 0);
    if alpha < beta && LeavesInside(b, depth, p) {
      SearchIsFailSoft(GameTree(Engine(p), b, depth), alpha, beta);
    }
  }

  // ---------------------------------------------------------------------
  // findBestMove
  // ---------------------------------------------------------------------

  /** The score `findBestMove` gives a root move: a search of the child one
      ply shallower with the window (-1000000, 1000000). */
  function RootScore(r: Rules, b: Board, m: Move, depth: nat): int
    requires depth >= 1
  {
    SearchTree(GameTree(r, r.play(b, m), depth - 1), -RootWindow, RootWindow)
  }

  /** For the engine, the root score of a move on the board is `alphaBeta`
      of the board the move leads to. */
  lemma RootScoreIsAlphaBeta(b: Board, m: Move, depth: nat, p: EvalParameters)
    requires b.Valid() && MoveInBounds(m) && depth >= 1
    ensures MakeMove(b, m).Valid()
    ensures RootScore(Engine(p), b, m, depth) == AlphaBeta(MakeMove(b, m), depth - 1, -RootWindow, RootWindow, p)
  {
    EngineOperations(p, b);
  }

  /** `x` is at least as good as `y` for the side that maximises when
      `maximise` holds and minimises otherwise. */
  predicate AtLeastAsGood(x: int, y: int, maximise: bool) {
    if maximise then y <= x else x <= y
  }

  /** Move k of the list has the best root score, and every earlier move a
      strictly worse one. */
  predicate FirstBestScore(r: Rules, b: Board, k: int, depth: nat)
    requires depth >= 1
  {
    var moves := r.moves(b);
    0 <= k < |moves|
    && (forall j :: 0 <= j < |moves| ==>
          AtLeastAsGood(RootScore(r, b, moves[k], depth), RootScore(r, b, moves[j], depth), b.sideToMove == White))
    && (forall j :: 0 <= j < k ==>
          !AtLeastAsGood(RootScore(r, b, moves[j], depth), RootScore(r, b, moves[k], depth), b.sideToMove == White))
  }

  /** Every root score lies strictly between the sentinels. */
  predicate RootScoresInside(r: Rules, b: Board, depth: nat)
    requires depth >= 1
  {
    var moves := r.moves(b);
    forall j :: 0 <= j < |moves| ==> -Infinity < RootScore(r, b, moves[j], depth) < Infinity
  }

  /** After scoring moves 0 .. i-1, `best` and `bestScore` are what the loop
      of `findBestMove` holds: the default move and the sentinel of the side
      to move while no score has beaten the sentinel, otherwise move k and
      its score, the first move with the best score so far. */
  ghost predicate Leading(r: Rules, b: Board, depth: nat, i: nat, k: int, best: Move, bestScore: int)
    requires depth >= 1 && i <= |r.moves(b)|
  {
    var moves := r.moves(b);
    var white := b.sideToMove == White;
    -1 <= k < i
    && (k == -1 ==> best == DefaultMove() && bestScore == (if white then -Infinity else Infinity))
    && (k >= 0 ==> best == moves[k] && bestScore == RootScore(r, b, moves[k], depth))
    && (forall j :: 0 <= j < i ==> AtLeastAsGood(bestScore, RootScore(r, b, moves[j], depth), white))
    && (k >= 0 ==> forall j :: 0 <= j < k ==> !AtLeastAsGood(RootScore(r, b, moves[j], depth), bestScore, white))
  }

  /** Scoring move i keeps the loop state leading: a strictly better score
      for the side to move takes over, anything else leaves the state as it
      was. */
  lemma LeadingStep(r: Rules, b: Board, depth: nat, i: nat, k: int, best: Move, bestScore: int, score: int)
    requires depth >= 1 && i < |r.moves(b)| && Leading(r, b, depth, i, k, best, bestScore)
    requires score == RootScore(r, b, r.moves(b)[i], depth)
    ensures if (if b.sideToMove == White then score > bestScore else score < bestScore)
            then Leading(r, b, depth, i + 1, i, r.moves(b)[i], score)
            else Leading(r, b, depth, i + 1, k, best, bestScore)
  {
  }

  /** Once every move is scored, and all scores lie inside the sentinels,
      some score has beaten the sentinel and the loop holds the first move
      with the best score. */
  lemma LeadingEnd(r: Rules, b: Board, depth: nat, k: int, best: Move, bestScore: int)
    requires depth >= 1 && 0 < |r.moves(b)| && Leading(r, b, depth, |r.moves(b)|, k, best, bestScore)
    requires RootScoresInside(r, b, depth)
    ensures FirstBestScore(r, b, k, depth) && best == r.moves(b)[k]
  {
    assert -Infinity < RootScore(r, b, r.moves(b)[0], depth) < Infinity;
  }

  /** The loop of `findBestMove` over any rules: score every move with a
      full-window search one ply shallower and keep the first strictly
      better one, starting from the sentinel of the side to move. Without
      moves, or if no score beats the sentinel, the default move comes back;
      when all scores lie inside the sentinels the result is the first move
      with the best score. */
  method FindBest(r: Rules, b: Board, depth: nat) returns (best: Move)
    requires depth >= 1
    ensures r.moves(b) == [] ==> best == DefaultMove()
    ensures best == DefaultMove() || best in r.moves(b)
    ensures |r.moves(b)| > 0 && RootScoresInside(r, b, depth) ==>
              exists k :: FirstBestScore(r, b, k, depth) && best == r.moves(b)[k]
  {
    var moves := r.moves(b);
    best := DefaultMove();
    if |moves| == 0 {
      return;
    }
    var white := b.sideToMove == White;
    var bestScore := if white then -Infinity else Infinity;
    ghost var k := -1;
    var i := 0;
    while i < |moves|
      invariant 0 <= i <= |moves|
      invariant best == DefaultMove() || best in moves
      invariant Leading(r, b, depth, i, k, best, bestScore)
    {
      var m := moves[i];
      var score := SearchTree(GameTree(r, r.play(b, m), depth - 1), -RootWindow, RootWindow);
      LeadingStep(r, b, depth, i, k, best, bestScore, score);
      if white {
        if score > bestScore {
          bestScore := score;
          best := m;
          k := i;
        }
      } else {
        if score < bestScore {
          bestScore := score;
          best := m;
          k := i;
        }
      }
      i := i + 1;
    }
    if RootScoresInside(r, b, depth) {
      LeadingEnd(r, b, depth, k, best, bestScore);
    }
  }

  /** `findBestMove(b, depth)` of the engine with weights `p`. Depth 0 is
      excluded: the source then calls `alphaBeta` at depth -1, which never
      reaches its depth-0 base case and stops only on a position with no
      moves. */
  method FindBestMove(b: Board, depth: nat, p: EvalParameters) returns (best: Move)
    requires b.Valid() && depth >= 1
    ensures GenerateMoves(b) == [] ==> best == DefaultMove()
    ensures best == DefaultMove() || best in GenerateMoves(b)
    ensures |GenerateMoves(b)| > 0 && RootScoresInside(Engine(p), b, depth) ==>
              exists k :: FirstBestScore(Engine(p), b, k, depth) && best == GenerateMoves(b)[k]
  {
    EngineOperations(p, b);
    best := FindBest(Engine(p), b, depth);
  }

  // ---------------------------------------------------------------------
  // The root choice against minimax
  // ---------------------------------------------------------------------

  /** The minimax value of the position a move leads to, one ply shallower. */
  function ChildValue(r: Rules, b: Board, m: Move, depth: nat): int
    requires depth >= 1 && Inside(GameTree(r, r.play(b, m), depth - 1))
  {
    InsideIsProper(GameTree(r, r.play(b, m), depth - 1));
    MinimaxValue(GameTree(r, r.play(b, m), depth - 1))
  }

  /** The children of a root whose leaves lie inside the sentinels have the
      same property, and each root score is then exactly the child's minimax
      value one ply shallower, itself strictly between the sentinels. */
  lemma RootScoreIsMinimax(r: Rules, b: Board, depth: nat, j: nat)
    requires depth >= 1 && Inside(GameTree(r, b, depth)) && j < |r.moves(b)|
    ensures var m := r.moves(b)[j];
            Inside(GameTree(r, r.play(b, m), depth - 1))
            && RootScore(r, b, m, depth) == ChildValue(r, b, m, depth)
            && -Infinity < ChildValue(r, b, m, depth) < Infinity
  {
    var child := GameTree(r, r.play(b, r.moves(b)[j]), depth - 1);
    ChildTree(r, b, depth, j);
    WideWindowIsExact(child, -RootWindow, RootWindow);
    MinimaxInside(child);
  }

  /** When every leaf of the search lies strictly inside the sentinels, the
      root scores do too, and the move `findBestMove` settles on, the first
      with the best root score, is the first move whose child has the best
      minimax value for the side to move: the largest for White, the
      smallest otherwise. */
  lemma BestMoveFollowsMinimax(r: Rules, b: Board, depth: nat, k: nat)
    requires depth >= 1 && Inside(GameTree(r, b, depth))
    requires FirstBestScore(r, b, k, depth)
    ensures var moves := r.moves(b);
            RootScoresInside(r, b, depth)
            && (forall j :: 0 <= j < |moves| ==> Inside(GameTree(r, r.play(b, moves[j]), depth - 1)))
            && (forall j :: 0 <= j < |moves| ==>
                  AtLeastAsGood(ChildValue(r, b, moves[k], depth), ChildValue(r, b, moves[j], depth), b.sideToMove == White))
            && (forall j :: 0 <= j < k ==>
                  !AtLeastAsGood(ChildValue(r, b, moves[j], depth), ChildValue(r, b, moves[k], depth), b.sideToMove == White))
  {
    var moves := r.moves(b);
    forall j | 0 <= j < |moves|
      ensures Inside(GameTree(r, r.play(b, moves[j]), depth - 1))
      ensures RootScore(r, b, moves[j], depth) == ChildValue(r, b, moves[j], depth)
      ensures -Infinity < RootScore(r, b, moves[j], depth) < Infinity
    {
      RootScoreIsMinimax(r, b, depth, j);
    }
  }
}
