/** The desktop game's rules object and its alpha-beta search
    (EnhancedOthello.py). The rules are the backend's; this copy also keeps a
    history of the boards before each move and the last move played, and
    its search branches on deep copies that keep every field. */
module Enhanced {
  import opened Board
  import opened BoardLemmas
  import opened Rules
  import opened Evaluation
  import opened Search
  import opened SearchLoop
  import GameTree
  import Opening

  class Othello {
    var board: array<Cell>
    var currentPlayer: Player
    var validMoves: seq<Entry>
    var aiDecisionLog: seq<(int, Pos)>
    var moveHistory: seq<Board>
    var lastMove: Option<Pos>
    var gameOver: bool
    var winner: Option<int>

    /** The stored move list is the mover's legal moves on the current board. */
    predicate Valid()
      reads this, board
    {
      board.Length == 64 && validMoves == ValidMoves(board[..], currentPlayer)
    }

    /** The fields the rules and the search read, as a value. */
    function State(): GameTree.Game
      reads this, board
      requires board.Length == 64
    {
      GameTree.Game(board[..], currentPlayer, validMoves, gameOver)
    }

    /** The standard start with black to move; black has a move, so the
        state is settled. History, last move, log and winner start empty. */
    constructor ()
      ensures fresh(board) && Valid()
      ensures board[..] == InitialBoard() && currentPlayer == BLACK && !gameOver
      ensures Keys(validMoves) == Opening.OPENING_MOVES && GameTree.Settled(State())
      ensures aiDecisionLog == [] && moveHistory == [] && lastMove == None && winner == None
    {
      var b := NewInitialBoard();
      var moves := GetValidMoves(b, BLACK);
      board := b;
      currentPlayer := BLACK;
      validMoves := moves;
      aiDecisionLog := [];
      moveHistory := [];
      lastMove := None;
      gameOver := false;
      winner := None;
      Opening.OpeningMoves(b[..]);
    }

    /** A deep copy: a fresh board with the same contents and every other
        field, the game-over flag included, carried over unchanged. */
    method Clone() returns (g: Othello)
      requires board.Length == 64
      ensures fresh(g) && fresh(g.board) && g.board.Length == 64
      ensures g.State() == State() && g.Valid() == Valid()
      ensures g.aiDecisionLog == aiDecisionLog && g.moveHistory == moveHistory
      ensures g.lastMove == lastMove && g.winner == winner
    {
      g := new Othello();
      var b := CopyBoard(board);
      g.board := b;
      g.currentPlayer := currentPlayer;
      g.validMoves := validMoves;
      g.aiDecisionLog := aiDecisionLog;
      g.moveHistory := moveHistory;
      g.lastMove := lastMove;
      g.gameOver := gameOver;
      g.winner := winner;
    }

    /** Records the side with more pieces, or EMPTY on a tie. */
    method DetermineWinner()
      requires board.Length == 64
      modifies this
      ensures board == old(board) && currentPlayer == old(currentPlayer) && validMoves == old(validMoves)
      ensures winner == Some(WinnerOf(board[..]))
      ensures gameOver == old(gameOver) && aiDecisionLog == old(aiDecisionLog)
      ensures moveHistory == old(moveHistory) && lastMove == old(lastMove)
    {
      var black, white := GetScore(board);
      if black > white {
        winner := Some(BLACK);
      } else if white > black {
        winner := Some(WHITE);
      } else {
        winner := Some(EMPTY);
      }
    }

    /** Hands the turn to the opponent when it has a move, else back to the
        mover, else ends the game and records the winner. */
    method SwitchPlayer()
      requires board.Length == 64
      modifies this
      ensures board == old(board) && Valid()
      ensures State() == GameTree.SwitchPlayer(old(State())) && GameTree.Settled(State())
      ensures winner == if NextTurn(board[..], old(currentPlayer)).over then Some(WinnerOf(board[..])) else old(winner)
      ensures aiDecisionLog == old(aiDecisionLog) && moveHistory == old(moveHistory) && lastMove == old(lastMove)
    {
      GameTree.SwitchPlayerFacts(State());
      currentPlayer := Opponent(currentPlayer);
      validMoves := GetValidMoves(board, currentPlayer);
      if validMoves == [] {
        currentPlayer := Opponent(currentPlayer);
        validMoves := GetValidMoves(board, currentPlayer);
        if validMoves == [] {
          gameOver := true;
          DetermineWinner();
        }
      }
    }

    /** The first half of make_move: pushes the board on the history, places
        the mover's piece on (r, c), records the move and paints the flips. */
    method PlacePiece(r: int, c: int, flips: seq<Pos>)
      requires board.Length == 64 && OnBoard(r, c) && forall q :: q in flips ==> OnBoard(q.r, q.c)
      modifies this, board
      ensures board == old(board) && board[..] == PlaceAndFlip(old(board[..]), Pos(r, c), flips, currentPlayer)
      ensures currentPlayer == old(currentPlayer) && validMoves == old(validMoves) && gameOver == old(gameOver)
      ensures winner == old(winner) && aiDecisionLog == old(aiDecisionLog)
      ensures moveHistory == old(moveHistory) + [old(board[..])] && lastMove == Some(Pos(r, c))
    {
      moveHistory := moveHistory + [board[..]];
      board[8 * r + c] := currentPlayer;
      lastMove := Some(Pos(r, c));
      PaintFlips(board, flips, currentPlayer);
    }

    /** Plays (r, c) for the side to move when it is a key of the stored move
        list: the pre-move board is pushed on the history, the piece is
        placed, (r, c) becomes the last move, the stored flips are painted and
        the turn is handed over. Any other coordinate is rejected and nothing
        changes, the history included. */
    method MakeMove(r: int, c: int) returns (ok: bool)
      requires Valid()
      modifies this, board
      ensures ok <==> Pos(r, c) in Keys(old(validMoves))
      ensures board == old(board) && Valid()
      ensures State() == GameTree.MakeMove(old(State()), Pos(r, c)).0
      ensures ok ==> GameTree.Settled(State())
      ensures ok ==> moveHistory == old(moveHistory) + [old(board[..])] && lastMove == Some(Pos(r, c))
      ensures !ok ==> moveHistory == old(moveHistory) && lastMove == old(lastMove) && winner == old(winner)
      ensures ok ==> winner == if NextTurn(board[..], old(currentPlayer)).over then Some(WinnerOf(board[..])) else old(winner)
      ensures aiDecisionLog == old(aiDecisionLog)
    {
      match Lookup(validMoves, Pos(r, c))
      case None =>
        ok := false;
      case Some(flips) =>
        ghost var g := State();
        ValidMoveIff(board[..], currentPlayer, r, c);
        FlipsFacts(board[..], r, c, currentPlayer);
        PlacePiece(r, c, flips);
        assert State() == GameTree.Game(PlaceAndFlip(g.board, Pos(r, c), flips, g.player), g.player, g.moves, g.over);
        SwitchPlayer();
        ok := true;
    }
  }

  // ---------------------------------------------------------------------------
  // minimax_alphabeta
  // ---------------------------------------------------------------------------

  /** Depth-limited fail-soft alpha-beta search over deep copies. A leaf
      (depth 0 or a finished game) is evaluated; a mover without moves passes
      at the cost of one ply; otherwise the max or min loop runs over the
      stored moves. The result obeys the fail-soft guarantee for the unpruned
      minimax value, and with the full window it is that value. */
  method MinimaxAlphaBeta(game: Othello, depth: nat, alpha: ExtInt, beta: ExtInt, maximizing: bool, ai: Player, total: int)
    returns (score: int, best: Option<Pos>, log: seq<(int, Pos)>)
    requires game.Valid()
    ensures Lt(alpha, beta) ==> FailSoft(GameTree.Value(game.State(), depth, maximizing, ai, total), score, alpha, beta)
    ensures depth == 0 || game.gameOver ==> score == DynamicScore(game.board[..], ai, total) && best == None && log == []
    ensures depth > 0 && !game.gameOver && game.validMoves != [] ==>
      && best.Some? && best.value in Keys(game.validMoves)
      && |log| > 0 && log[0].0 == score
      && (forall x :: x in log ==> x.1 in Keys(game.validMoves))
      && (maximizing ==> SortedDesc(log)) && (!maximizing ==> SortedAsc(log))
      && ExploredLog(log, GameTree.ChildValues(game.State(), depth - 1, maximizing, ai, total), game.validMoves, alpha, beta, score, best.value, maximizing)
    ensures depth > 0 && !game.gameOver && game.validMoves != [] && alpha == NegInf && beta == PosInf ==>
      && |log| == |game.validMoves| && best.Some?
      && FirstBest(GameTree.ChildValues(game.State(), depth - 1, maximizing, ai, total), game.validMoves, best.value, score, maximizing)
    decreases depth, 3
  {
    ghost var g := game.State();
    if depth == 0 || game.gameOver {
      GameTree.ValueLeaf(g, depth, maximizing, ai, total);
      score := DynamicEvaluateBoard(game.board, ai, total);
      assert Lt(alpha, beta) ==> FailSoft(GameTree.Value(g, depth, maximizing, ai, total), score, alpha, beta);
      best := None;
      log := [];
      return;
    }
    var validMoves := game.validMoves;
    if validMoves == [] {
      score, best, log := SearchAfterPass(game, depth, alpha, beta, maximizing, ai, total);
      return;
    }
    var b: Pos;
    GameTree.ValueNode(g, depth - 1, maximizing, ai, total);
    if maximizing {
      score, b, log := MaxNode(game, depth, alpha, beta, ai, total);
      assert g == game.State();
      assert Lt(alpha, beta) ==> FailSoft(MaxOf(GameTree.ChildValues(g, depth - 1, true, ai, total)), score, alpha, beta);
    } else {
      score, b, log := MinNode(game, depth, alpha, beta, ai, total);
      assert g == game.State();
      assert Lt(alpha, beta) ==> FailSoft(MinOf(GameTree.ChildValues(g, depth - 1, false, ai, total)), score, alpha, beta);
    }
    assert Lt(alpha, beta) ==> FailSoft(GameTree.Value(g, depth, maximizing, ai, total), score, alpha, beta);
    best := Some(b);
  }

  /** The pass branch: a deep copy hands the turn over and is searched one
      ply shallower with the roles swapped and the piece count unchanged;
      its result is returned as is. */
  method SearchAfterPass(game: Othello, depth: nat, alpha: ExtInt, beta: ExtInt, maximizing: bool, ai: Player, total: int)
    returns (score: int, best: Option<Pos>, log: seq<(int, Pos)>)
    requires game.Valid() && depth > 0 && !game.gameOver && game.validMoves == []
    ensures Lt(alpha, beta) ==> FailSoft(GameTree.Value(game.State(), depth, maximizing, ai, total), score, alpha, beta)
    decreases depth, 2
  {
    ghost var g := game.State();
    var next := game.Clone();
    next.SwitchPlayer();
    assert next.State() == GameTree.SwitchPlayer(g);
    ghost var v := GameTree.Value(GameTree.SwitchPlayer(g), depth - 1, !maximizing, ai, total);
    score, best, log := MinimaxAlphaBeta(next, depth - 1, alpha, beta, !maximizing, ai, total);
    assert next.State() == GameTree.SwitchPlayer(g);
    assert Lt(alpha, beta) ==> FailSoft(v, score, alpha, beta);
    GameTree.ValuePass(g, depth - 1, maximizing, ai, total);
    assert g == game.State();
  }

  /** The maximizing node: runs the loop over the stored moves, then reports
      its best evaluation, the move that first reached it, and the log of
      explored (evaluation, move) pairs sorted best first. */
  method MaxNode(game: Othello, depth: nat, alpha: ExtInt, beta: ExtInt, ai: Player, total: int)
    returns (score: int, best: Pos, log: seq<(int, Pos)>)
    requires game.Valid() && !game.gameOver && game.validMoves != [] && depth > 0
    ensures NodeResult(GameTree.ChildValues(game.State(), depth - 1, true, ai, total), game.validMoves, alpha, beta, score, best, log, true)
    decreases depth, 2
  {
    var maxEval, evaluated;
    ghost var es, bi;
    maxEval, best, evaluated, es, bi := MaxLoop(game, depth, alpha, beta, ai, total);
    MaxResult(GameTree.ChildValues(game.State(), depth - 1, true, ai, total), game.validMoves, alpha, beta, es, evaluated, maxEval, bi, best);
    score := maxEval.n;
    log := SortDesc(evaluated);
  }


  /** The maximizing loop: explores the stored moves in order, raising alpha,
      and stops once beta <= alpha. */
  method MaxLoop(game: Othello, depth: nat, alpha: ExtInt, beta: ExtInt, ai: Player, total: int)
    returns (maxEval: ExtInt, bestMove: Pos, evaluated: seq<(int, Pos)>, ghost es: seq<int>, ghost bi: nat)
    requires game.Valid() && !game.gameOver && game.validMoves != [] && depth > 0
    ensures MaxDone(GameTree.ChildValues(game.State(), depth - 1, true, ai, total), game.validMoves,
      alpha, beta, es, evaluated, maxEval, bi, bestMove)
    decreases depth, 1
  {
    ghost var vs := GameTree.ChildValues(game.State(), depth - 1, true, ai, total);
    var validMoves := game.validMoves;
    evaluated := [];
    bestMove := validMoves[0].pos;
    maxEval := NegInf;
    var a := alpha;
    es := [];
    bi := 0;
    var i := 0;
    while i < |validMoves|
      invariant i == |es| && MaxInv(vs, validMoves, alpha, beta, a, es, evaluated, maxEval, bi, bestMove)
    {
      var move := validMoves[i].pos;
      var evaluation := SearchChild(game, depth, i, a, beta, true, ai, total);
      MaxAdvance(vs, validMoves, alpha, beta, a, es, evaluated, maxEval, bi, bestMove, evaluation);
      evaluated := evaluated + [(evaluation, move)];
      es := es + [evaluation];
      if Lt(maxEval, Fin(evaluation)) {
        maxEval := Fin(evaluation);
        bestMove := move;
        bi := i;
      }
      a := Max(a, Fin(evaluation));
      if !Lt(a, beta) {
        return;
      }
      i := i + 1;
    }
    MaxFinish(vs, validMoves, alpha, beta, a, es, evaluated, maxEval, bi, bestMove);
  }

  /** The minimizing node: the mirror image, with the log sorted lowest first. */
  method MinNode(game: Othello, depth: nat, alpha: ExtInt, beta: ExtInt, ai: Player, total: int)
    returns (score: int, best: Pos, log: seq<(int, Pos)>)
    requires game.Valid() && !game.gameOver && game.validMoves != [] && depth > 0
    ensures NodeResult(GameTree.ChildValues(game.State(), depth - 1, false, ai, total), game.validMoves, alpha, beta, score, best, log, false)
    decreases depth, 2
  {
    var minEval, evaluated;
    ghost var es, bi;
    minEval, best, evaluated, es, bi := MinLoop(game, depth, alpha, beta, ai, total);
    MinResult(GameTree.ChildValues(game.State(), depth - 1, false, ai, total), game.validMoves, alpha, beta, es, evaluated, minEval, bi, best);
    score := minEval.n;
    log := SortAsc(evaluated);
  }


  /** The minimizing loop: explores the stored moves in order, lowering beta,
      and stops once beta <= alpha. */
  method MinLoop(game: Othello, depth: nat, alpha: ExtInt, beta: ExtInt, ai: Player, total: int)
    returns (minEval: ExtInt, bestMove: Pos, evaluated: seq<(int, Pos)>, ghost es: seq<int>, ghost bi: nat)
    requires game.Valid() && !game.gameOver && game.validMoves != [] && depth > 0
    ensures MinDone(GameTree.ChildValues(game.State(), depth - 1, false, ai, total), game.validMoves,
      alpha, beta, es, evaluated, minEval, bi, bestMove)
    decreases depth, 1
  {
    ghost var vs := GameTree.ChildValues(game.State(), depth - 1, false, ai, total);
    var validMoves := game.validMoves;
    evaluated := [];
    bestMove := validMoves[0].pos;
    minEval := PosInf;
    var b := beta;
    es := [];
    bi := 0;
    var i := 0;
    while i < |validMoves|
      invariant i == |es| && MinInv(vs, validMoves, alpha, beta, b, es, evaluated, minEval, bi, bestMove)
    {
      var move := validMoves[i].pos;
      var evaluation := SearchChild(game, depth, i, alpha, b, false, ai, total);
      MinAdvance(vs, validMoves, alpha, beta, b, es, evaluated, minEval, bi, bestMove, evaluation);
      evaluated := evaluated + [(evaluation, move)];
      es := es + [evaluation];
      if Lt(Fin(evaluation), minEval) {
        minEval := Fin(evaluation);
        bestMove := move;
        bi := i;
      }
      b := Min(b, Fin(evaluation));
      if !Lt(alpha, b) {
        return;
      }
      i := i + 1;
    }
    MinFinish(vs, validMoves, alpha, beta, b, es, evaluated, minEval, bi, bestMove);
  }

  /** One iteration's child search: a deep copy plays stored move i and is
      searched one ply shallower with the other role and one more piece. */
  method SearchChild(game: Othello, depth: nat, i: nat, alpha: ExtInt, beta: ExtInt, maxi: bool, ai: Player, total: int)
    returns (evaluation: int)
    requires game.Valid() && !game.gameOver && depth > 0 && i < |game.validMoves|
    ensures Lt(alpha, beta) ==> FailSoft(GameTree.ChildValues(game.State(), depth - 1, maxi, ai, total)[i], evaluation, alpha, beta)
    decreases depth, 0
  {
    ghost var g := game.State();
    var d: nat := depth - 1;
    var move := game.validMoves[i].pos;
    var next := game.Clone();
    var _ := next.MakeMove(move.r, move.c);
    ghost var c := GameTree.MakeMove(g, move).0;
    assert next.State() == c;
    evaluation := SearchScore(next, d, alpha, beta, !maxi, ai, total + 1);
    assert Lt(alpha, beta) ==> FailSoft(GameTree.Value(c, d, !maxi, ai, total + 1), evaluation, alpha, beta);
    GameTree.ChildValueAt(g, depth, d, maxi, ai, total, i);
    assert g == game.State();
  }

  /** The recursive call of a search loop, whose move and log are dropped. */
  method SearchScore(game: Othello, depth: nat, alpha: ExtInt, beta: ExtInt, maximizing: bool, ai: Player, total: int)
    returns (score: int)
    requires game.Valid()
    ensures Lt(alpha, beta) ==> FailSoft(GameTree.Value(game.State(), depth, maximizing, ai, total), score, alpha, beta)
    decreases depth, 4
  {
    var best, log;
    score, best, log := MinimaxAlphaBeta(game, depth, alpha, beta, maximizing, ai, total);
  }
}
