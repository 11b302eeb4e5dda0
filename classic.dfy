/** The first desktop game (Othello.py): the same rules without a game-over
    flag (the game is over when the stored move list is empty), a
    fixed-weight evaluator, and a minimax search that recomputes the
    mover's moves at every node and passes by flipping the side to move
    only. */
module Classic {
  import opened Board
  import opened BoardLemmas
  import Opening
  import opened Rules
  import opened Evaluation
  import opened Search
  import opened SearchLoop

  // ---------------------------------------------------------------------------
  // The game as a value
  // ---------------------------------------------------------------------------

  /** The fields of a game object that the rules and the search read. */
  datatype Position = Position(board: Board, player: Player, moves: seq<Entry>)

  /** The stored move list is the one get_valid_moves computes for the mover. */
  predicate Current(g: Position) {
    g.moves == ValidMoves(g.board, g.player)
  }

  /** make_move: a coordinate that is not a key of the stored move list is
      rejected and nothing changes; otherwise the piece is placed, the stored
      flips are painted, and the opponent moves next unless it has no move,
      in which case the mover moves again. */
  function Play(g: Position, q: Pos): (Position, bool) {
    match Lookup(g.moves, q)
    case None => (g, false)
    case Some(flips) =>
      var b := PlaceAndFlip(g.board, q, flips, g.player);
      var t := NextTurn(b, g.player);
      (Position(b, t.player, t.moves), true)
  }

  /** The pass of the search: the side to move flips and nothing else, so
      the stored move list is left as it was. */
  function Pass(g: Position): Position {
    Position(g.board, Opponent(g.player), g.moves)
  }

  /** The value minimax computes without pruning: the evaluation at depth 0
      or when the stored list is empty; the value after a pass when the
      recomputed list is empty; otherwise the maximum (or minimum) of the
      children's values, one per recomputed move in order. */
  function Value(g: Position, depth: nat, maxi: bool, ai: Player): int
    decreases depth, 2
  {
    if depth == 0 || g.moves == [] then EvaluateBoard(g.board, ai)
    else
      var ms := ValidMoves(g.board, g.player);
      if ms == [] then Value(Pass(g), depth - 1, !maxi, ai)
      else
        var vs := ChildValues(g, ms, depth - 1, maxi, ai);
        if maxi then MaxOf(vs) else MinOf(vs)
  }

  /** The values of the children reached by the moves ms, searched to depth d. */
  function ChildValues(g: Position, ms: seq<Entry>, d: nat, maxi: bool, ai: Player): (vs: seq<int>)
    ensures |vs| == |ms|
    decreases d + 1, 1
  {
    seq(|ms|, k requires 0 <= k < |ms| => ChildValue(g, ms, k, d, maxi, ai))
  }

  /** The value of the position reached by move k, searched to depth d with
      the other role. */
  function ChildValue(g: Position, ms: seq<Entry>, k: nat, d: nat, maxi: bool, ai: Player): int
    requires k < |ms|
    decreases d + 1, 0
  {
    Value(Play(g, ms[k].pos).0, d, !maxi, ai)
  }

  lemma ValueLeaf(g: Position, depth: nat, maxi: bool, ai: Player)
    requires depth == 0 || g.moves == []
    ensures Value(g, depth, maxi, ai) == EvaluateBoard(g.board, ai)
  {
  }

  lemma ValueNode(g: Position, d: nat, maxi: bool, ai: Player)
    requires Current(g) && g.moves != []
    ensures Value(g, d + 1, maxi, ai) ==
      if maxi then MaxOf(ChildValues(g, g.moves, d, maxi, ai)) else MinOf(ChildValues(g, g.moves, d, maxi, ai))
  {
  }

  /** Entry i of the child values is the value, one ply shallower, of the
      position reached by move i. */
  lemma ChildValueAt(g: Position, ms: seq<Entry>, depth: nat, d: nat, maxi: bool, ai: Player, i: nat)
    requires depth > 0 && d == depth - 1 && i < |ms|
    ensures ChildValues(g, ms, depth - 1, maxi, ai)[i] == Value(Play(g, ms[i].pos).0, d, !maxi, ai)
  {
  }

  // ---------------------------------------------------------------------------
  // What a move does, and why the search never passes
  // ---------------------------------------------------------------------------

  /** A move is accepted exactly when it is a key of the stored list. When
      the list is current, an accepted move applies the legal flips, the
      opponent moves next if and only if it can, and the new list is current;
      the game is then over exactly when neither side can move. */
  lemma PlayFacts(g: Position, q: Pos)
    requires Current(g)
    ensures Play(g, q).1 <==> q in Keys(g.moves)
    ensures !Play(g, q).1 ==> Play(g, q).0 == g
    ensures Play(g, q).1 ==>
      var h := Play(g, q).0;
      var o := Opponent(g.player);
      && h.board == PlaceAndFlip(g.board, q, FlipsOf(g.board, q.r, q.c, g.player), g.player)
      && Current(h)
      && (h.player == o <==> ValidMoves(h.board, o) != [])
      && (h.moves == [] <==> ValidMoves(h.board, o) == [] && ValidMoves(h.board, g.player) == [])
  {
    if q in Keys(g.moves) {
      ValidMoveIff(g.board, g.player, q.r, q.c);
    } else {
      ValidMoveIff(g.board, g.player, q.r, q.c);
      assert Lookup(g.moves, q) == None;
    }
  }

  /** Every position a search reaches from a current one by moves is
      current, whatever the move. */
  lemma PlayKeepsCurrent(g: Position, q: Pos)
    requires Current(g)
    ensures Current(Play(g, q).0)
  {
  }

  /** Minimax with the pass branch removed. */
  function ValueNoPass(g: Position, depth: nat, maxi: bool, ai: Player): int
    decreases depth, 2
  {
    if depth == 0 || g.moves == [] then EvaluateBoard(g.board, ai)
    else
      var vs := ChildValuesNoPass(g, g.moves, depth - 1, maxi, ai);
      if maxi then MaxOf(vs) else MinOf(vs)
  }

  function ChildValuesNoPass(g: Position, ms: seq<Entry>, d: nat, maxi: bool, ai: Player): (vs: seq<int>)
    ensures |vs| == |ms|
    decreases d + 1, 1
  {
    seq(|ms|, k requires 0 <= k < |ms| => ChildValueNoPass(g, ms, k, d, maxi, ai))
  }

  function ChildValueNoPass(g: Position, ms: seq<Entry>, k: nat, d: nat, maxi: bool, ai: Player): int
    requires k < |ms|
    decreases d + 1, 0
  {
    ValueNoPass(Play(g, ms[k].pos).0, d, !maxi, ai)
  }

  lemma ValueNoPassNode(g: Position, d: nat, maxi: bool, ai: Player)
    requires g.moves != []
    ensures ValueNoPass(g, d + 1, maxi, ai) ==
      if maxi then MaxOf(ChildValuesNoPass(g, g.moves, d, maxi, ai)) else MinOf(ChildValuesNoPass(g, g.moves, d, maxi, ai))
  {
  }

  /** From a current position (the constructor's, or any reached by
      make_move) the search never takes its pass branch: its value agrees
      with the pass-free definition at every depth. */
  lemma {:induction false} CurrentNeverPasses(g: Position, depth: nat, maxi: bool, ai: Player)
    requires Current(g)
    ensures Value(g, depth, maxi, ai) == ValueNoPass(g, depth, maxi, ai)
    decreases depth, 3
  {
    if depth > 0 && g.moves != [] {
      var d: nat := depth - 1;
      ChildrenNeverPass(g, d, maxi, ai);
      ValueNode(g, d, maxi, ai);
      ValueNoPassNode(g, d, maxi, ai);
    }
  }

  lemma {:induction false} ChildrenNeverPass(g: Position, d: nat, maxi: bool, ai: Player)
    requires Current(g)
    ensures ChildValues(g, g.moves, d, maxi, ai) == ChildValuesNoPass(g, g.moves, d, maxi, ai)
    decreases d + 1, 2
  {
    var vs := ChildValues(g, g.moves, d, maxi, ai);
    var ws := ChildValuesNoPass(g, g.moves, d, maxi, ai);
    forall i | 0 <= i < |g.moves| ensures vs[i] == ws[i] {
      ChildNeverPasses(g, d, maxi, ai, i);
    }
  }

  lemma {:induction false} ChildNeverPasses(g: Position, d: nat, maxi: bool, ai: Player, i: nat)
    requires Current(g) && i < |g.moves|
    ensures ChildValues(g, g.moves, d, maxi, ai)[i] == ChildValuesNoPass(g, g.moves, d, maxi, ai)[i]
    decreases d, 4
  {
    PlayKeepsCurrent(g, g.moves[i].pos);
    CurrentNeverPasses(Play(g, g.moves[i].pos).0, d, !maxi, ai);
  }

  // ---------------------------------------------------------------------------
  // The game object
  // ---------------------------------------------------------------------------

  class Othello {
    var board: array<Cell>
    var currentPlayer: Player
    var validMoves: seq<Entry>
    var aiDecisionLog: seq<(int, Pos)>

    /** The stored move list is the mover's legal moves on the current board. */
    predicate Valid()
      reads this, board
    {
      board.Length == 64 && validMoves == ValidMoves(board[..], currentPlayer)
    }

    /** The fields the rules and the search read, as a value. */
    function State(): Position
      reads this, board
      requires board.Length == 64
    {
      Position(board[..], currentPlayer, validMoves)
    }

    /** The standard start with black to move, two pieces each, and black's
        four opening moves stored. */
    constructor ()
      ensures fresh(board) && Valid()
      ensures board[..] == InitialBoard() && currentPlayer == BLACK
      ensures Keys(validMoves) == Opening.OPENING_MOVES && aiDecisionLog == []
    {
      var b := NewInitialBoard();
      board := b;
      currentPlayer := BLACK;
      validMoves := [];
      aiDecisionLog := [];
      new;
      UpdateValidMoves();
      Opening.OpeningMoves(b[..]);
    }

    /** Recomputes the stored move list for the side to move. */
    method UpdateValidMoves()
      requires board.Length == 64
      modifies this
      ensures Valid() && board == old(board) && currentPlayer == old(currentPlayer)
      ensures aiDecisionLog == old(aiDecisionLog)
    {
      validMoves := GetValidMoves(board, currentPlayer);
    }

    /** Plays (r, c) when it is a key of the stored move list; any other
        coordinate is rejected and nothing changes. */
    method MakeMove(r: int, c: int) returns (ok: bool)
      requires Valid()
      modifies this, board
      ensures ok <==> Pos(r, c) in Keys(old(validMoves))
      ensures board == old(board) && Valid()
      ensures State() == Play(old(State()), Pos(r, c)).0
      ensures aiDecisionLog == old(aiDecisionLog)
    {
      ghost var g := State();
      match Lookup(validMoves, Pos(r, c))
      case None =>
        ok := false;
      case Some(flips) =>
        ValidMoveIff(board[..], currentPlayer, r, c);
        FlipsFacts(board[..], r, c, currentPlayer);
        board[8 * r + c] := currentPlayer;
        PaintFlips(board, flips, currentPlayer);
        currentPlayer := Opponent(currentPlayer);
        UpdateValidMoves();
        if validMoves == [] {
          currentPlayer := Opponent(currentPlayer);
          UpdateValidMoves();
        }
        ok := true;
    }

    /** The score pair (black pieces, white pieces). */
    method GetScore() returns (black: nat, white: nat)
      requires board.Length == 64
      ensures black == Count(board[..], BLACK) && white == Count(board[..], WHITE)
      ensures black + white <= 64
    {
      black, white := Rules.GetScore(board);
    }

    /** The game is over when the stored move list is empty; for a current
        list that means the side to move has no legal move. */
    method IsGameOver() returns (over: bool)
      requires Valid()
      ensures over <==> ValidMoves(board[..], currentPlayer) == []
    {
      over := validMoves == [];
    }

    /** A deep copy: a fresh board with the same contents and every other
        field carried over. */
    method Clone() returns (g: Othello)
      requires board.Length == 64
      ensures fresh(g) && fresh(g.board) && g.board.Length == 64
      ensures g.State() == State() && g.Valid() == Valid() && g.aiDecisionLog == aiDecisionLog
    {
      g := new Othello();
      var b := CopyBoard(board);
      g.board := b;
      g.currentPlayer := currentPlayer;
      g.validMoves := validMoves;
      g.aiDecisionLog := aiDecisionLog;
    }
  }

  // ---------------------------------------------------------------------------
  // minimax
  // ---------------------------------------------------------------------------

  /** Depth-limited fail-soft alpha-beta search on a game whose stored move
      list is current. A leaf (depth 0 or an empty stored list) is
      evaluated; otherwise the recomputed list equals the stored one, so the
      pass branch is never taken, and the max or min loop runs over it. */
  method Minimax(game: Othello, depth: nat, alpha: ExtInt, beta: ExtInt, maximizing: bool, ai: Player)
    returns (score: int, best: Option<Pos>, log: seq<(int, Pos)>)
    requires game.Valid()
    ensures Lt(alpha, beta) ==> FailSoft(Value(game.State(), depth, maximizing, ai), score, alpha, beta)
    ensures depth == 0 || game.validMoves == [] ==> score == EvaluateBoard(game.board[..], ai) && best == None && log == []
    ensures depth > 0 && game.validMoves != [] ==>
      && best.Some? && best.value in Keys(ValidMoves(game.board[..], game.currentPlayer))
      && |log| > 0 && log[0].0 == score
      && (forall x :: x in log ==> x.1 in Keys(game.validMoves))
      && (maximizing ==> SortedDesc(log)) && (!maximizing ==> SortedAsc(log))
      && ExploredLog(log, ChildValues(game.State(), game.validMoves, depth - 1, maximizing, ai), game.validMoves, alpha, beta, score, best.value, maximizing)
    ensures depth > 0 && game.validMoves != [] && alpha == NegInf && beta == PosInf ==>
      && |log| == |game.validMoves| && best.Some?
      && FirstBest(ChildValues(game.State(), game.validMoves, depth - 1, maximizing, ai), game.validMoves, best.value, score, maximizing)
    decreases depth, 3
  {
    ghost var g := game.State();
    if depth == 0 || game.validMoves == [] {
      ValueLeaf(g, depth, maximizing, ai);
      score := EvaluateBoard(game.board[..], ai);
      best := None;
      log := [];
      return;
    }
    var validMoves := GetValidMoves(game.board, game.currentPlayer);
    if validMoves == [] {
      assert false;
    }
    var b: Pos;
    ValueNode(g, depth - 1, maximizing, ai);
    if maximizing {
      score, b, log := MaxNode(game, depth, alpha, beta, ai);
      assert g == game.State();
      assert Lt(alpha, beta) ==> FailSoft(MaxOf(ChildValues(g, g.moves, depth - 1, true, ai)), score, alpha, beta);
    } else {
      score, b, log := MinNode(game, depth, alpha, beta, ai);
      assert g == game.State();
      assert Lt(alpha, beta) ==> FailSoft(MinOf(ChildValues(g, g.moves, depth - 1, false, ai)), score, alpha, beta);
    }
    assert Lt(alpha, beta) ==> FailSoft(Value(g, depth, maximizing, ai), score, alpha, beta);
    best := Some(b);
  }

  /** The maximizing node: the loop's best evaluation, the move that first
      reached it, and the explored pairs sorted best first. */
  method MaxNode(game: Othello, depth: nat, alpha: ExtInt, beta: ExtInt, ai: Player)
    returns (score: int, best: Pos, log: seq<(int, Pos)>)
    requires game.Valid() && game.validMoves != [] && depth > 0
    ensures NodeResult(ChildValues(game.State(), game.validMoves, depth - 1, true, ai), game.validMoves, alpha, beta, score, best, log, true)
    decreases depth, 2
  {
    var maxEval, evaluated;
    ghost var es, bi;
    maxEval, best, evaluated, es, bi := MaxLoop(game, depth, alpha, beta, ai);
    MaxResult(ChildValues(game.State(), game.validMoves, depth - 1, true, ai), game.validMoves, alpha, beta, es, evaluated, maxEval, bi, best);
    score := maxEval.n;
    log := SortDesc(evaluated);
  }


  /** The maximizing loop over the moves, raising alpha and stopping once
      beta <= alpha. */
  method MaxLoop(game: Othello, depth: nat, alpha: ExtInt, beta: ExtInt, ai: Player)
    returns (maxEval: ExtInt, bestMove: Pos, evaluated: seq<(int, Pos)>, ghost es: seq<int>, ghost bi: nat)
    requires game.Valid() && game.validMoves != [] && depth > 0
    ensures MaxDone(ChildValues(game.State(), game.validMoves, depth - 1, true, ai), game.validMoves,
      alpha, beta, es, evaluated, maxEval, bi, bestMove)
    decreases depth, 1
  {
    ghost var vs := ChildValues(game.State(), game.validMoves, depth - 1, true, ai);
    var validMoves := game.validMoves;
    evaluated := [];
    bestMove := validMoves[0].pos;
    maxEval := NegInf;
    var a := alpha;
    es := [];
    bi := 0;
    var i := 0;
    while i < |validMoves|
      invariant i == |es| && MaxInv(vs, validMoves, alpha, beta, a, es, evaluated, maxEval, bi, bestMove)
    {
      var move := validMoves[i].pos;
      var evaluation := SearchChild(game, depth, i, a, beta, true, ai);
      MaxAdvance(vs, validMoves, alpha, beta, a, es, evaluated, maxEval, bi, bestMove, evaluation);
      evaluated := evaluated + [(evaluation, move)];
      es := es + [evaluation];
      if Lt(maxEval, Fin(evaluation)) {
        maxEval := Fin(evaluation);
        bestMove := move;
        bi := i;
      }
      a := Max(a, Fin(evaluation));
      if !Lt(a, beta) {
        return;
      }
      i := i + 1;
    }
    MaxFinish(vs, validMoves, alpha, beta, a, es, evaluated, maxEval, bi, bestMove);
  }

  /** The minimizing node: the mirror image, with the log sorted lowest first. */
  method MinNode(game: Othello, depth: nat, alpha: ExtInt, beta: ExtInt, ai: Player)
    returns (score: int, best: Pos, log: seq<(int, Pos)>)
    requires game.Valid() && game.validMoves != [] && depth > 0
    ensures NodeResult(ChildValues(game.State(), game.validMoves, depth - 1, false, ai), game.validMoves, alpha, beta, score, best, log, false)
    decreases depth, 2
  {
    var minEval, evaluated;
    ghost var es, bi;
    minEval, best, evaluated, es, bi := MinLoop(game, depth, alpha, beta, ai);
    MinResult(ChildValues(game.State(), game.validMoves, depth - 1, false, ai), game.validMoves, alpha, beta, es, evaluated, minEval, bi, best);
    score := minEval.n;
    log := SortAsc(evaluated);
  }


  /** The minimizing loop over the moves, lowering beta and stopping once
      beta <= alpha. */
  method MinLoop(game: Othello, depth: nat, alpha: ExtInt, beta: ExtInt, ai: Player)
    returns (minEval: ExtInt, bestMove: Pos, evaluated: seq<(int, Pos)>, ghost es: seq<int>, ghost bi: nat)
    requires game.Valid() && game.validMoves != [] && depth > 0
    ensures MinDone(ChildValues(game.State(), game.validMoves, depth - 1, false, ai), game.validMoves,
      alpha, beta, es, evaluated, minEval, bi, bestMove)
    decreases depth, 1
  {
    ghost var vs := ChildValues(game.State(), game.validMoves, depth - 1, false, ai);
    var validMoves := game.validMoves;
    evaluated := [];
    bestMove := validMoves[0].pos;
    minEval := PosInf;
    var b := beta;
    es := [];
    bi := 0;
    var i := 0;
    while i < |validMoves|
      invariant i == |es| && MinInv(vs, validMoves, alpha, beta, b, es, evaluated, minEval, bi, bestMove)
    {
      var move := validMoves[i].pos;
      var evaluation := SearchChild(game, depth, i, alpha, b, false, ai);
      MinAdvance(vs, validMoves, alpha, beta, b, es, evaluated, minEval, bi, bestMove, evaluation);
      evaluated := evaluated + [(evaluation, move)];
      es := es + [evaluation];
      if Lt(Fin(evaluation), minEval) {
        minEval := Fin(evaluation);
        bestMove := move;
        bi := i;
      }
      b := Min(b, Fin(evaluation));
      if !Lt(alpha, b) {
        return;
      }
      i := i + 1;
    }
    MinFinish(vs, validMoves, alpha, beta, b, es, evaluated, minEval, bi, bestMove);
  }

  /** One iteration's child search: a deep copy plays move i and is searched
      one ply shallower with the other role. */
  method SearchChild(game: Othello, depth: nat, i: nat, alpha: ExtInt, beta: ExtInt, maxi: bool, ai: Player)
    returns (evaluation: int)
    requires game.Valid() && depth > 0 && i < |game.validMoves|
    ensures Lt(alpha, beta) ==> FailSoft(ChildValues(game.State(), game.validMoves, depth - 1, maxi, ai)[i], evaluation, alpha, beta)
    decreases depth, 0
  {
    ghost var g := game.State();
    var d: nat := depth - 1;
    var move := game.validMoves[i].pos;
    var next := game.Clone();
    var _ := next.MakeMove(move.r, move.c);
    ghost var c := Play(g, move).0;
    assert next.State() == c;
    evaluation := SearchScore(next, d, alpha, beta, !maxi, ai);
    assert Lt(alpha, beta) ==> FailSoft(Value(c, d, !maxi, ai), evaluation, alpha, beta);
    ChildValueAt(g, g.moves, depth, d, maxi, ai, i);
    assert g == game.State();
  }

  /** The recursive call of a search loop, whose move and log are dropped. */
  method SearchScore(game: Othello, depth: nat, alpha: ExtInt, beta: ExtInt, maximizing: bool, ai: Player)
    returns (score: int)
    requires game.Valid()
    ensures Lt(alpha, beta) ==> FailSoft(Value(game.State(), depth, maximizing, ai), score, alpha, beta)
    decreases depth, 4
  {
    var best, log;
    score, best, log := Minimax(game, depth, alpha, beta, maximizing, ai);
  }
}
