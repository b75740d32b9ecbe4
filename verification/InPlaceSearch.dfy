/** Minimax.cpp as written: `alphaBeta` and `findBestMove` work on one shared
    board, applying each move with `makeMove` before the recursive search and
    reverting it with `undoMove(m, captured)` after. Each search result here
    is a pair: the score and the board the search leaves behind. The revert is
    the heuristic one of Board.cpp. When no move of the unpruned search tree
    is one that the revert cannot undo, the shared board comes back and the
    search coincides with the pure search of module Search. Alpha-beta may
    cut off some of those moves, so the condition is sufficient, not
    necessary. */
module InPlaceSearch {
  import opened ChessTypes
  import opened Boards
  import opened MoveGen
  import opened Evaluation
  import opened TreeSearch
  import opened Search

  /** `b.board[m.toRow][m.toCol]`, read before the move: the piece the move
      captures. */
  function CapturedBy(b: Board, m: Move): Piece {
    if b.Valid() && MoveInBounds(m) then b.grid[m.toRow][m.toCol] else EmptyPiece
  }

  // ---------------------------------------------------------------------
  // The search on a shared board
  // ---------------------------------------------------------------------

  /** `alphaBeta(b, depth, alpha, beta)` on a shared board: the score, and the
      board after the call. The moves are generated once, on entry; each is
      applied to the board as the previous iteration left it. */
  function Run(r: Rules, b: Board, depth: nat, alpha: int, beta: int): (int, Board)
    decreases depth, 1, 0
  {
    if depth == 0 then (r.eval(b), b)
    else
      var moves := r.moves(b);
      if |moves| == 0 then (r.eval(b), b)
      else if b.sideToMove == White then MaxRun(r, b, moves, 0, depth, alpha, beta, -Infinity)
      else MinRun(r, b, moves, 0, depth, alpha, beta, Infinity)
  }

  /** The maximising loop from move i on, starting from board `b`: make the
      move, search, undo with the captured piece, then raise `value` and
      `alpha` and stop once `alpha >= beta`. */
  function MaxRun(r: Rules, b: Board, moves: seq<Move>, i: nat, depth: nat,
                  alpha: int, beta: int, value: int): (int, Board)
    requires i <= |moves| && depth >= 1
    decreases depth, 0, |moves| - i
  {
    if i == |moves| then (value, b)
    else
      var m := moves[i];
      var captured := CapturedBy(b, m);
      var (score, after) := Run(r, r.play(b, m), depth - 1, alpha, beta);
      var back := r.undo(after, m, captured);
      var v := Max(value, score);
      var a := Max(alpha, v);
      if a >= beta then (v, back) else MaxRun(r, back, moves, i + 1, depth, a, beta, v)
  }

  /** The minimising loop: lower `value` and `beta`, stop once `beta <= alpha`. */
  function MinRun(r: Rules, b: Board, moves: seq<Move>, i: nat, depth: nat,
                  alpha: int, beta: int, value: int): (int, Board)
    requires i <= |moves| && depth >= 1
    decreases depth, 0, |moves| - i
  {
    if i == |moves| then (value, b)
    else
      var m := moves[i];
      var captured := CapturedBy(b, m);
      var (score, after) := Run(r, r.play(b, m), depth - 1, alpha, beta);
      var back := r.undo(after, m, captured);
      var v := Min(value, score);
      var bt := Min(beta, v);
      if bt <= alpha then (v, back) else MinRun(r, back, moves, i + 1, depth, alpha, bt, v)
  }

  // ---------------------------------------------------------------------
  // Conditions on the rules and on the moves of the search tree
  // ---------------------------------------------------------------------

  /** The rules keep to 8x8 boards: generated moves lie on the board, and a
      move and a revert each give an 8x8 board with the side to move
      flipped. */
  ghost predicate StaysOnBoard(r: Rules) {
    (forall b: Board :: b.Valid() ==> AllInBounds(r.moves(b)))
    && (forall b: Board, m: Move :: b.Valid() && MoveInBounds(m) ==>
          r.play(b, m).Valid() && r.play(b, m).sideToMove == Flip(b.sideToMove))
    && (forall b: Board, m: Move, c: Piece :: b.Valid() && MoveInBounds(m) ==>
          r.undo(b, m, c).Valid() && r.undo(b, m, c).sideToMove == Flip(b.sideToMove))
  }

  /** Undoing move m straight after making it, with the piece it captured,
      gives the board back. */
  predicate RoundTrips(r: Rules, b: Board, m: Move) {
    r.undo(r.play(b, m), m, CapturedBy(b, m)) == b
  }

  /** Every move of the unpruned search tree from `b` to the given depth
      round trips. The search may cut some of these moves off, so this is
      enough for the board to come back but not needed for it. */
  predicate AllRoundTrip(r: Rules, b: Board, depth: nat)
    decreases depth
  {
    depth == 0
    || forall i :: 0 <= i < |r.moves(b)| ==>
         RoundTrips(r, b, r.moves(b)[i]) && AllRoundTrip(r, r.play(b, r.moves(b)[i]), depth - 1)
  }

  /** Every move of the unpruned search tree from `b` to the given depth
      passes `ok`. */
  predicate AllExplored(r: Rules, b: Board, depth: nat, ok: (Board, Move) -> bool)
    decreases depth
  {
    depth == 0
    || forall i :: 0 <= i < |r.moves(b)| ==>
         ok(b, r.moves(b)[i]) && AllExplored(r, r.play(b, r.moves(b)[i]), depth - 1, ok)
  }

  /** `ok` picks out exactly the moves that round trip, on 8x8 boards. */
  ghost predicate Characterises(r: Rules, ok: (Board, Move) -> bool) {
    forall b: Board, m: Move :: b.Valid() && MoveInBounds(m) ==> (ok(b, m) <==> RoundTrips(r, b, m))
  }

  /** A condition that characterises the round-tripping moves characterises
      the unpruned trees in which every move round trips. */
  lemma {:induction false} AllRoundTripCharacterised(r: Rules, b: Board, depth: nat, ok: (Board, Move) -> bool)
    requires StaysOnBoard(r) && Characterises(r, ok) && b.Valid()
    ensures AllRoundTrip(r, b, depth) <==> AllExplored(r, b, depth, ok)
    decreases depth, 1
  {
    if depth > 0 {
      forall i | 0 <= i < |r.moves(b)|
        ensures RoundTrips(r, b, r.moves(b)[i]) <==> ok(b, r.moves(b)[i])
        ensures AllRoundTrip(r, r.play(b, r.moves(b)[i]), depth - 1)
                <==> AllExplored(r, r.play(b, r.moves(b)[i]), depth - 1, ok)
      {
        AllRoundTripCharacterisedAfter(r, b, r.moves(b)[i], depth - 1, ok);
      }
    }
  }

  /** One move of the induction: the move round trips exactly when `ok`
      accepts it, and the searches of the given depth below it agree. */
  lemma {:induction false} AllRoundTripCharacterisedAfter(r: Rules, b: Board, m: Move, depth: nat, ok: (Board, Move) -> bool)
    requires StaysOnBoard(r) && Characterises(r, ok) && b.Valid() && m in r.moves(b)
    ensures RoundTrips(r, b, m) <==> ok(b, m)
    ensures AllRoundTrip(r, r.play(b, m), depth) <==> AllExplored(r, r.play(b, m), depth, ok)
    decreases depth, 2
  {
    assert AllInBounds(r.moves(b));
    assert MoveInBounds(m);
    AllRoundTripCharacterised(r, r.play(b, m), depth, ok);
  }

  // ---------------------------------------------------------------------
  // The shared board against the pure search
  // ---------------------------------------------------------------------

  /** When every move of the unpruned tree round trips, the search on the
      shared board returns the pure search's score and leaves the board as
      it found it. */
  lemma {:induction false} RunIsPure(r: Rules, b: Board, depth: nat, alpha: int, beta: int)
    requires AllRoundTrip(r, b, depth)
    ensures Run(r, b, depth, alpha, beta) == (SearchTree(GameTree(r, b, depth), alpha, beta), b)
    decreases depth, 1, 0
  {
    ChildTree(r, b, depth, 0);
    if depth > 0 && |r.moves(b)| > 0 {
      if b.sideToMove == White {
        MaxRunIsPure(r, b, depth, 0, alpha, beta, -Infinity);
      } else {
        MinRunIsPure(r, b, depth, 0, alpha, beta, Infinity);
      }
    }
  }

  lemma {:induction false} MaxRunIsPure(r: Rules, b: Board, depth: nat, i: nat, alpha: int, beta: int, value: int)
    requires AllRoundTrip(r, b, depth) && depth >= 1 && 0 < |r.moves(b)| && i <= |r.moves(b)|
    ensures GameTree(r, b, depth).Node?
    ensures MaxRun(r, b, r.moves(b), i, depth, alpha, beta, value)
            == (MaxLoop(GameTree(r, b, depth), i, alpha, beta, value), b)
    decreases depth, 0, |r.moves(b)| - i
  {
    var t := GameTree(r, b, depth);
    ChildTree(r, b, depth, i);
    if i < |r.moves(b)| {
      var m := r.moves(b)[i];
      RunIsPure(r, r.play(b, m), depth - 1, alpha, beta);
      var v := Max(value, SearchTree(t.children[i], alpha, beta));
      MaxRunIsPure(r, b, depth, i + 1, Max(alpha, v), beta, v);
    }
  }

  lemma {:induction false} MinRunIsPure(r: Rules, b: Board, depth: nat, i: nat, alpha: int, beta: int, value: int)
    requires AllRoundTrip(r, b, depth) && depth >= 1 && 0 < |r.moves(b)| && i <= |r.moves(b)|
    ensures GameTree(r, b, depth).Node?
    ensures MinRun(r, b, r.moves(b), i, depth, alpha, beta, value)
            == (MinLoop(GameTree(r, b, depth), i, alpha, beta, value), b)
    decreases depth, 0, |r.moves(b)| - i
  {
    var t := GameTree(r, b, depth);
    ChildTree(r, b, depth, i);
    if i < |r.moves(b)| {
      var m := r.moves(b)[i];
      RunIsPure(r, r.play(b, m), depth - 1, alpha, beta);
      var v := Min(value, SearchTree(t.children[i], alpha, beta));
      MinRunIsPure(r, b, depth, i + 1, alpha, Min(beta, v), v);
    }
  }

  /** Whatever the explored moves, the shared board comes back an 8x8 board
      with the same side to move, as long as a real side was to move: every
      make and every revert flips the side. */
  lemma {:induction false} RunKeepsSide(r: Rules, b: Board, depth: nat, alpha: int, beta: int)
    requires StaysOnBoard(r) && b.Valid() && b.sideToMove != NoColor
    ensures Run(r, b, depth, alpha, beta).1.Valid()
    ensures Run(r, b, depth, alpha, beta).1.sideToMove == b.sideToMove
    decreases depth, 1, 0
  {
    if depth > 0 && |r.moves(b)| > 0 {
      if b.sideToMove == White {
        MaxRunKeepsSide(r, b, r.moves(b), 0, depth, alpha, beta, -Infinity);
      } else {
        MinRunKeepsSide(r, b, r.moves(b), 0, depth, alpha, beta, Infinity);
      }
    }
  }

  /** One make, search and revert gives an 8x8 board with the same side. */
  lemma StepKeepsSide(r: Rules, b: Board, m: Move, depth: nat, alpha: int, beta: int)
    requires StaysOnBoard(r) && b.Valid() && b.sideToMove != NoColor && MoveInBounds(m) && depth >= 1
    ensures var back := r.undo(Run(r, r.play(b, m), depth - 1, alpha, beta).1, m, CapturedBy(b, m));
            back.Valid() && back.sideToMove == b.sideToMove
    decreases depth, 0, 0
  {
    var child := r.play(b, m);
    RunKeepsSide(r, child, depth - 1, alpha, beta);
  }

  lemma {:induction false} MaxRunKeepsSide(r: Rules, b: Board, moves: seq<Move>, i: nat, depth: nat,
                                           alpha: int, beta: int, value: int)
    requires StaysOnBoard(r) && b.Valid() && b.sideToMove != NoColor
    requires AllInBounds(moves) && i <= |moves| && depth >= 1
    ensures MaxRun(r, b, moves, i, depth, alpha, beta, value).1.Valid()
    ensures MaxRun(r, b, moves, i, depth, alpha, beta, value).1.sideToMove == b.sideToMove
    decreases depth, 0, |moves| - i
  {
    if i < |moves| {
      var m := moves[i];
      StepKeepsSide(r, b, m, depth, alpha, beta);
      var (score, after) := Run(r, r.play(b, m), depth - 1, alpha, beta);
      var back := r.undo(after, m, CapturedBy(b, m));
      var v := Max(value, score);
      MaxRunKeepsSide(r, back, moves, i + 1, depth, Max(alpha, v), beta, v);
    }
  }

  lemma {:induction false} MinRunKeepsSide(r: Rules, b: Board, moves: seq<Move>, i: nat, depth: nat,
                                           alpha: int, beta: int, value: int)
    requires StaysOnBoard(r) && b.Valid() && b.sideToMove != NoColor
    requires AllInBounds(moves) && i <= |moves| && depth >= 1
    ensures MinRun(r, b, moves, i, depth, alpha, beta, value).1.Valid()
    ensures MinRun(r, b, moves, i, depth, alpha, beta, value).1.sideToMove == b.sideToMove
    decreases depth, 0, |moves| - i
  {
    if i < |moves| {
      var m := moves[i];
      StepKeepsSide(r, b, m, depth, alpha, beta);
      var (score, after) := Run(r, r.play(b, m), depth - 1, alpha, beta);
      var back := r.undo(after, m, CapturedBy(b, m));
      var v := Min(value, score);
      MinRunKeepsSide(r, back, moves, i + 1, depth, alpha, Min(beta, v), v);
    }
  }

  // ---------------------------------------------------------------------
  // findBestMove on the shared board
  // ---------------------------------------------------------------------

  /** `findBestMove` on a shared board, over any rules: each move is made on
      the board as the previous iteration left it, scored by the shared-board
      search one ply shallower with the window (-1000000, 1000000), and
      reverted; the side to move is read after the revert. Returns the chosen
      move and the board left behind. When every move of the unpruned tree
      round trips the board comes back and the choice is the pure one: the first move
      with the best root score. Whatever the moves, rules that keep to 8x8
      boards give back a real side to move. */
  method FindBestShared(r: Rules, b: Board, depth: nat) returns (best: Move, board: Board)
    requires depth >= 1
    ensures r.moves(b) == [] ==> best == DefaultMove() && board == b
    ensures best == DefaultMove() || best in r.moves(b)
    ensures StaysOnBoard(r) && b.Valid() && b.sideToMove != NoColor ==>
              board.Valid() && board.sideToMove == b.sideToMove
    ensures AllRoundTrip(r, b, depth) ==> board == b
    ensures AllRoundTrip(r, b, depth) && |r.moves(b)| > 0 && RootScoresInside(r, b, depth) ==>
              exists k :: FirstBestScore(r, b, k, depth) && best == r.moves(b)[k]
  {
    var moves := r.moves(b);
    best := DefaultMove();
    board := b;
    if |moves| == 0 {
      return;
    }
    var white := b.sideToMove == White;
    var bestScore := if white then -Infinity else Infinity;
    ghost var allRoundTrip := AllRoundTrip(r, b, depth);
    ghost var keepsSide := StaysOnBoard(r) && b.Valid() && b.sideToMove != NoColor;
    ghost var k := -1;
    var i := 0;
    while i < |moves|
      invariant 0 <= i <= |moves|
      invariant best == DefaultMove() || best in moves
      invariant keepsSide ==> board.Valid() && board.sideToMove == b.sideToMove
      invariant allRoundTrip ==> board == b && Leading(r, b, depth, i, k, best, bestScore)
    {
      var m := moves[i];
      SharedStep(r, b, board, i, depth);
      var score;
      score, board := Probe(r, board, m, depth).0, Probe(r, board, m, depth).1;
      if allRoundTrip {
        LeadingStep(r, b, depth, i, k, best, bestScore, score);
      }
      if board.sideToMove == White {
        if score > bestScore {
          bestScore := score;
          best := m;
          k := i;
        }
      } else {
        if score < bestScore {
          bestScore := score;
          best := m;
          k := i;
        }
      }
      i := i + 1;
    }
    if allRoundTrip && RootScoresInside(r, b, depth) {
      LeadingEnd(r, b, depth, k, best, bestScore);
    }
  }

  /** One iteration of the loop of `findBestMove` on the shared board: read
      the destination, make the move, search one ply shallower with the
      window (-1000000, 1000000), and revert. The score and the board after
      the revert. */
  function Probe(r: Rules, board: Board, m: Move, depth: nat): (int, Board)
    requires depth >= 1
  {
    var captured := CapturedBy(board, m);
    var (score, after) := Run(r, r.play(board, m), depth - 1, -RootWindow, RootWindow);
    (score, r.undo(after, m, captured))
  }

  /** One iteration of the shared-board loop on root move i: from the
      untouched board it scores the move with its root score and gives the
      board back when every move of the unpruned tree round trips, and from any 8x8
      board with a real side to move it keeps the side. */
  lemma SharedStep(r: Rules, b: Board, board: Board, i: nat, depth: nat)
    requires depth >= 1 && i < |r.moves(b)|
    ensures var probe := Probe(r, board, r.moves(b)[i], depth);
            (AllRoundTrip(r, b, depth) && board == b ==> probe.0 == RootScore(r, b, r.moves(b)[i], depth) && probe.1 == b)
            && (StaysOnBoard(r) && b.Valid() && board.Valid() && board.sideToMove != NoColor ==>
                  probe.1.Valid() && probe.1.sideToMove == board.sideToMove)
  {
    var m := r.moves(b)[i];
    if AllRoundTrip(r, b, depth) && board == b {
      RunIsPure(r, r.play(b, m), depth - 1, -RootWindow, RootWindow);
    }
    if StaysOnBoard(r) && b.Valid() && board.Valid() && board.sideToMove != NoColor {
      assert MoveInBounds(m);
      StepKeepsSide(r, board, m, depth, -RootWindow, RootWindow);
    }
  }

  // ---------------------------------------------------------------------
  // The engine's search on a shared board
  // ---------------------------------------------------------------------

  /** A move the heuristic revert undoes: on an 8x8 board with a real side to
      move, anything but a queen arriving on its own promotion rank. */
  predicate Revertible(b: Board, m: Move) {
    b.Valid() && MoveInBounds(m) && !QueenToOwnLastRank(b, m) && b.sideToMove != NoColor
  }

  /** The engine keeps to 8x8 boards and flips the side on every make and
      revert. */
  lemma EngineStaysOnBoard(p: EvalParameters)
    ensures StaysOnBoard(Engine(p))
  {
    var r := Engine(p);
    forall b: Board | b.Valid()
      ensures AllInBounds(r.moves(b))
    {
      EngineOperations(p, b);
    }
    forall b: Board, m: Move | b.Valid() && MoveInBounds(m)
      ensures r.play(b, m).Valid() && r.play(b, m).sideToMove == Flip(b.sideToMove)
    {
      EngineOperations(p, b);
    }
    forall b: Board, m: Move, c: Piece | b.Valid() && MoveInBounds(m)
      ensures r.undo(b, m, c).Valid() && r.undo(b, m, c).sideToMove == Flip(b.sideToMove)
    {
      EngineOperations(p, b);
    }
  }

  /** The engine's moves that round trip are exactly the revertible ones. */
  lemma EngineRoundTrips(p: EvalParameters)
    ensures Characterises(Engine(p), Revertible)
  {
    forall b: Board, m: Move | b.Valid() && MoveInBounds(m)
      ensures Revertible(b, m) <==> RoundTrips(Engine(p), b, m)
    {
      EngineOperations(p, b);
      EngineOperations(p, MakeMove(b, m));
      MakeUndoRoundTrip(b, m);
    }
  }

  /** `alphaBeta(b, depth, alpha, beta)` of the engine on a shared board: the
      score and the board the call leaves behind. */
  function AlphaBetaInPlace(b: Board, depth: nat, alpha: int, beta: int, p: EvalParameters): (int, Board)
    requires b.Valid()
  {
    Run(Engine(p), b, depth, alpha, beta)
  }

  /** No move of the unpruned search tree from `b` is one the revert cannot
      undo. */
  predicate SafeSearch(b: Board, depth: nat, p: EvalParameters) {
    AllExplored(Engine(p), b, depth, Revertible)
  }

  /** After the shared-board search the board is 8x8 and the side to move is
      the one before the call, whatever moves were explored, when a real side
      was to move. */
  lemma InPlaceKeepsSide(b: Board, depth: nat, alpha: int, beta: int, p: EvalParameters)
    requires b.Valid() && b.sideToMove != NoColor
    ensures AlphaBetaInPlace(b, depth, alpha, beta, p).1.Valid()
    ensures AlphaBetaInPlace(b, depth, alpha, beta, p).1.sideToMove == b.sideToMove
  {
    EngineStaysOnBoard(p);
    RunKeepsSide(Engine(p), b, depth, alpha, beta);
  }

  /** Every move of the unpruned tree round trips exactly when none is a
      queen arriving on its own promotion rank and a real side is to move
      throughout; if so, the shared-board search gives the pure search's
      score and gives the board back. */
  lemma InPlaceIsPure(b: Board, depth: nat, alpha: int, beta: int, p: EvalParameters)
    requires b.Valid()
    ensures AllRoundTrip(Engine(p), b, depth) <==> SafeSearch(b, depth, p)
    ensures SafeSearch(b, depth, p) ==> AlphaBetaInPlace(b, depth, alpha, beta, p) == (AlphaBeta(b, depth, alpha, beta, p), b)
  {
    EngineStaysOnBoard(p);
    EngineRoundTrips(p);
    AllRoundTripCharacterised(Engine(p), b, depth, Revertible);
    if SafeSearch(b, depth, p) {
      RunIsPure(Engine(p), b, depth, alpha, beta);
    }
  }

  /** `findBestMove(b, depth)` of the engine as written: the chosen move and
      the board left behind. A real side to move always comes back; when no
      move of the unpruned tree is one the revert cannot undo, the board
      comes back and the move is the pure search's choice. */
  method FindBestMoveInPlace(b: Board, depth: nat, p: EvalParameters) returns (best: Move, board: Board)
    requires b.Valid() && depth >= 1
    ensures GenerateMoves(b) == [] ==> best == DefaultMove() && board == b
    ensures best == DefaultMove() || best in GenerateMoves(b)
    ensures b.sideToMove != NoColor ==> board.Valid() && board.sideToMove == b.sideToMove
    ensures SafeSearch(b, depth, p) ==> board == b
    ensures SafeSearch(b, depth, p) && |GenerateMoves(b)| > 0 && RootScoresInside(Engine(p), b, depth) ==>
              exists k :: FirstBestScore(Engine(p), b, k, depth) && best == GenerateMoves(b)[k]
  {
    EngineOperations(p, b);
    EngineStaysOnBoard(p);
    EngineRoundTrips(p);
    AllRoundTripCharacterised(Engine(p), b, depth, Revertible);
    best, board := FindBestShared(Engine(p), b, depth);
  }
}
