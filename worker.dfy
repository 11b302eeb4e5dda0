/** The web worker's search (othello-ai/src/aiworker.js). It works on bare
    boards: every node generates the moves of the AI's colour, a max node
    plays them for the AI and a min node plays the same cells for the
    opponent, and each branch works on a fresh copy of the board. */
module Worker {
  import opened Board
  import opened BoardLemmas
  import opened Rules
  import opened Evaluation
  import opened Search
  import opened SearchLoop

  // ---------------------------------------------------------------------------
  // The evaluator with the worker's weight chains
  // ---------------------------------------------------------------------------

  /** dynamicEvaluateBoard: the four weights come from one ternary chain
      each; the score is the same as the Python copies'. */
  method DynamicEvaluateBoard(board: array<Cell>, player: Player, totalPieces: int) returns (score: int)
    requires board.Length == 64
    ensures score == DynamicScore(board[..], player, totalPieces)
  {
    var w := Weights(
      if totalPieces < 20 then 1 else if totalPieces < 52 then 5 else 20,
      if totalPieces < 20 then 15 else if totalPieces < 52 then 10 else 5,
      if totalPieces < 20 then 100 else if totalPieces < 52 then 100 else 120,
      if totalPieces < 20 then 80 else if totalPieces < 52 then 100 else 120);
    ChainWeightsAgree(totalPieces);
    assert w == ChainWeights(totalPieces);
    score := ScoreWithWeights(board, player, w);
  }

  // ---------------------------------------------------------------------------
  // The search as a value
  // ---------------------------------------------------------------------------

  /** The colour a node places: the AI at max nodes, its opponent at min nodes. */
  function Mover(maxi: bool, ai: Player): Player {
    if maxi then ai else Opponent(ai)
  }

  /** The value minimaxAlphaBeta computes without pruning: the evaluation at
      depth 0; when the AI has no move, the evaluation if the opponent has
      none either and otherwise the value one ply shallower on the same board
      with the roles swapped; else the maximum (or minimum) over the children
      reached by the AI's moves, each searched with one more piece. */
  function Value(b: Board, depth: nat, maxi: bool, ai: Player, total: int): int
    decreases depth, 2
  {
    if depth == 0 then DynamicScore(b, ai, total)
    else
      var ms := ValidMoves(b, ai);
      if ms == [] then
        if ValidMoves(b, Opponent(ai)) == [] then DynamicScore(b, ai, total)
        else Value(b, depth - 1, !maxi, ai, total)
      else
        var vs := ChildValues(b, ms, depth - 1, maxi, ai, total);
        if maxi then MaxOf(vs) else MinOf(vs)
  }

  /** The values of the children reached by the moves ms, each searched to
      depth d with one more piece. */
  function ChildValues(b: Board, ms: seq<Entry>, d: nat, maxi: bool, ai: Player, total: int): (vs: seq<int>)
    ensures |vs| == |ms|
    decreases d + 1, 1
  {
    seq(|ms|, k requires 0 <= k < |ms| => ChildValue(b, ms, k, d, maxi, ai, total))
  }

  /** The value of the board reached by move k: its target and stored flips
      painted in the node's colour, searched to depth d with the other role
      and one more piece. */
  function ChildValue(b: Board, ms: seq<Entry>, k: nat, d: nat, maxi: bool, ai: Player, total: int): int
    requires k < |ms|
    decreases d + 1, 0
  {
    Value(PlaceAndFlip(b, ms[k].pos, ms[k].flips, Mover(maxi, ai)), d, !maxi, ai, total + 1)
  }

  lemma ValueNode(b: Board, d: nat, maxi: bool, ai: Player, total: int)
    requires ValidMoves(b, ai) != []
    ensures Value(b, d + 1, maxi, ai, total) ==
      var vs := ChildValues(b, ValidMoves(b, ai), d, maxi, ai, total);
      if maxi then MaxOf(vs) else MinOf(vs)
  {
  }

  /** Entry i of the child values is the value, one ply shallower and with
      one more piece, of the board reached by move i. */
  lemma ChildValueAt(b: Board, ms: seq<Entry>, depth: nat, d: nat, maxi: bool, ai: Player, total: int, i: nat)
    requires depth > 0 && d == depth - 1 && i < |ms|
    ensures ChildValues(b, ms, depth - 1, maxi, ai, total)[i] ==
      Value(PlaceAndFlip(b, ms[i].pos, ms[i].flips, Mover(maxi, ai)), d, !maxi, ai, total + 1)
  {
  }

  // ---------------------------------------------------------------------------
  // Properties of the worker's tree
  // ---------------------------------------------------------------------------

  /** When the AI has no move, the search evaluates the board as it is,
      whether or not the opponent can move: the pass keeps the board, so
      the AI still has no move one ply down, down to depth 0. */
  lemma {:induction false} NoMovesValue(b: Board, depth: nat, maxi: bool, ai: Player, total: int)
    requires ValidMoves(b, ai) == []
    ensures Value(b, depth, maxi, ai, total) == DynamicScore(b, ai, total)
  {
    if depth > 0 && ValidMoves(b, Opponent(ai)) != [] {
      NoMovesValue(b, depth - 1, !maxi, ai, total);
    }
  }

  /** A min node plays the AI's moves for the opponent. The cells such a move
      "flips" already hold the opponent's colour, so the child board differs
      from its parent only in the target cell. */
  lemma MinChildOnlyPlaces(b: Board, ai: Player, q: Pos)
    requires q in Keys(ValidMoves(b, ai))
    ensures OnBoard(q.r, q.c)
    ensures PlaceAndFlip(b, q, FlipsOf(b, q.r, q.c, ai), Opponent(ai)) == b[IndexOf(q) := Opponent(ai)]
  {
    ValidMoveIff(b, ai, q.r, q.c);
    FlipsFacts(b, q.r, q.c, ai);
    var o := Opponent(ai);
    var f := FlipsOf(b, q.r, q.c, ai);
    var b1 := b[IndexOf(q) := o];
    var b' := PlaceAndFlip(b, q, f, o);
    forall i | 0 <= i < 64 ensures b'[i] == b1[i] {
      PaintAllAt(b1, f, o, i);
      var x := PosOf(i);
      if x in f {
        assert At(b, x.r, x.c) == o && x != q;
      }
    }
  }

  // ---------------------------------------------------------------------------
  // minimaxAlphaBeta
  // ---------------------------------------------------------------------------

  /** Depth-limited fail-soft alpha-beta search on a board it only reads. At
      depth 0, and whenever the AI has no move, the result is the board's
      evaluation with no move and an empty log; otherwise the move is one of
      the AI's legal moves and the log is sorted best first for the node's
      role. With the full window the score is the unpruned value. */
  method MinimaxAlphaBeta(board: array<Cell>, depth: nat, alpha: ExtInt, beta: ExtInt, maximizing: bool, ai: Player, total: int)
    returns (score: int, best: Option<Pos>, log: seq<(int, Pos)>)
    requires board.Length == 64
    ensures Lt(alpha, beta) ==> FailSoft(Value(board[..], depth, maximizing, ai, total), score, alpha, beta)
    ensures depth == 0 || ValidMoves(board[..], ai) == [] ==>
      score == DynamicScore(board[..], ai, total) && best == None && log == []
    ensures depth > 0 && ValidMoves(board[..], ai) != [] ==>
      && best.Some? && best.value in Keys(ValidMoves(board[..], ai))
      && |log| > 0 && log[0].0 == score
      && (forall x :: x in log ==> x.1 in Keys(ValidMoves(board[..], ai)))
      && (maximizing ==> SortedDesc(log)) && (!maximizing ==> SortedAsc(log))
      && ExploredLog(log, ChildValues(board[..], ValidMoves(board[..], ai), depth - 1, maximizing, ai, total), ValidMoves(board[..], ai),
        alpha, beta, score, best.value, maximizing)
    ensures depth > 0 && ValidMoves(board[..], ai) != [] && alpha == NegInf && beta == PosInf ==>
      && |log| == |ValidMoves(board[..], ai)| && best.Some?
      && FirstBest(ChildValues(board[..], ValidMoves(board[..], ai), depth - 1, maximizing, ai, total),
                   ValidMoves(board[..], ai), best.value, score, maximizing)
    decreases depth, 3
  {
    ghost var b := board[..];
    if depth == 0 {
      score := DynamicEvaluateBoard(board, ai, total);
      best := None;
      log := [];
      return;
    }
    var validMoves := GetValidMoves(board, ai);
    if validMoves == [] {
      score, best, log := SearchAfterPass(board, depth, alpha, beta, maximizing, ai, total);
      return;
    }
    var m: Pos;
    ValueNode(b, depth - 1, maximizing, ai, total);
    if maximizing {
      score, m, log := MaxNode(board, validMoves, depth, alpha, beta, ai, total);
    } else {
      score, m, log := MinNode(board, validMoves, depth, alpha, beta, ai, total);
    }
    best := Some(m);
  }

  /** The AI has no move: a copy of the board is evaluated when the opponent
      cannot move either, and otherwise searched one ply shallower with the
      roles swapped. Either way the answer is the evaluation of the board. */
  method SearchAfterPass(board: array<Cell>, depth: nat, alpha: ExtInt, beta: ExtInt, maximizing: bool, ai: Player, total: int)
    returns (score: int, best: Option<Pos>, log: seq<(int, Pos)>)
    requires board.Length == 64 && depth > 0 && ValidMoves(board[..], ai) == []
    ensures Lt(alpha, beta) ==> FailSoft(Value(board[..], depth, maximizing, ai, total), score, alpha, beta)
    ensures score == DynamicScore(board[..], ai, total) && best == None && log == []
    decreases depth, 2
  {
    var newBoard := CopyBoard(board);
    var nextValidMoves := GetValidMoves(newBoard, Opponent(ai));
    if nextValidMoves == [] {
      score := DynamicEvaluateBoard(newBoard, ai, total);
      best := None;
      log := [];
    } else {
      score, best, log := MinimaxAlphaBeta(newBoard, depth - 1, alpha, beta, !maximizing, ai, total);
    }
    NoMovesValue(board[..], depth, maximizing, ai, total);
  }

  /** The maximizing node over the AI's moves ms. */
  method MaxNode(board: array<Cell>, ms: seq<Entry>, depth: nat, alpha: ExtInt, beta: ExtInt, ai: Player, total: int)
    returns (score: int, best: Pos, log: seq<(int, Pos)>)
    requires board.Length == 64 && ms == ValidMoves(board[..], ai) && ms != [] && depth > 0
    ensures NodeResult(ChildValues(board[..], ms, depth - 1, true, ai, total), ms, alpha, beta, score, best, log, true)
    decreases depth, 2
  {
    var maxEval, evaluated;
    ghost var es, bi;
    maxEval, best, evaluated, es, bi := MaxLoop(board, ms, depth, alpha, beta, ai, total);
    MaxResult(ChildValues(board[..], ms, depth - 1, true, ai, total), ms, alpha, beta, es, evaluated, maxEval, bi, best);
    score := maxEval.n;
    log := SortDesc(evaluated);
  }


  /** The maximizing loop: explores the moves in order, raising alpha, and
      stops once beta <= alpha. */
  method MaxLoop(board: array<Cell>, ms: seq<Entry>, depth: nat, alpha: ExtInt, beta: ExtInt, ai: Player, total: int)
    returns (maxEval: ExtInt, bestMove: Pos, evaluated: seq<(int, Pos)>, ghost es: seq<int>, ghost bi: nat)
    requires board.Length == 64 && ms == ValidMoves(board[..], ai) && ms != [] && depth > 0
    ensures MaxDone(ChildValues(board[..], ms, depth - 1, true, ai, total), ms,
      alpha, beta, es, evaluated, maxEval, bi, bestMove)
    decreases depth, 1
  {
    ghost var vs := ChildValues(board[..], ms, depth - 1, true, ai, total);
    evaluated := [];
    bestMove := ms[0].pos;
    maxEval := NegInf;
    var a := alpha;
    es := [];
    bi := 0;
    var i := 0;
    while i < |ms|
      invariant i == |es| && MaxInv(vs, ms, alpha, beta, a, es, evaluated, maxEval, bi, bestMove)
    {
      var move := ms[i].pos;
      var evaluation := SearchChild(board, ms, depth, i, a, beta, true, ai, total);
      MaxAdvance(vs, ms, alpha, beta, a, es, evaluated, maxEval, bi, bestMove, evaluation);
      evaluated := evaluated + [(evaluation, move)];
      es := es + [evaluation];
      if Lt(maxEval, Fin(evaluation)) {
        maxEval := Fin(evaluation);
        bestMove := move;
        bi := i;
      }
      a := Max(a, Fin(evaluation));
      if !Lt(a, beta) {
        return;
      }
      i := i + 1;
    }
    MaxFinish(vs, ms, alpha, beta, a, es, evaluated, maxEval, bi, bestMove);
  }

  /** The minimizing node: the mirror image, with the log sorted lowest first. */
  method MinNode(board: array<Cell>, ms: seq<Entry>, depth: nat, alpha: ExtInt, beta: ExtInt, ai: Player, total: int)
    returns (score: int, best: Pos, log: seq<(int, Pos)>)
    requires board.Length == 64 && ms == ValidMoves(board[..], ai) && ms != [] && depth > 0
    ensures NodeResult(ChildValues(board[..], ms, depth - 1, false, ai, total), ms, alpha, beta, score, best, log, false)
    decreases depth, 2
  {
    var minEval, evaluated;
    ghost var es, bi;
    minEval, best, evaluated, es, bi := MinLoop(board, ms, depth, alpha, beta, ai, total);
    MinResult(ChildValues(board[..], ms, depth - 1, false, ai, total), ms, alpha, beta, es, evaluated, minEval, bi, best);
    score := minEval.n;
    log := SortAsc(evaluated);
  }


  /** The minimizing loop: explores the moves in order, lowering beta, and
      stops once beta <= alpha. */
  method MinLoop(board: array<Cell>, ms: seq<Entry>, depth: nat, alpha: ExtInt, beta: ExtInt, ai: Player, total: int)
    returns (minEval: ExtInt, bestMove: Pos, evaluated: seq<(int, Pos)>, ghost es: seq<int>, ghost bi: nat)
    requires board.Length == 64 && ms == ValidMoves(board[..], ai) && ms != [] && depth > 0
    ensures MinDone(ChildValues(board[..], ms, depth - 1, false, ai, total), ms,
      alpha, beta, es, evaluated, minEval, bi, bestMove)
    decreases depth, 1
  {
    ghost var vs := ChildValues(board[..], ms, depth - 1, false, ai, total);
    evaluated := [];
    bestMove := ms[0].pos;
    minEval := PosInf;
    var b := beta;
    es := [];
    bi := 0;
    var i := 0;
    while i < |ms|
      invariant i == |es| && MinInv(vs, ms, alpha, beta, b, es, evaluated, minEval, bi, bestMove)
    {
      var move := ms[i].pos;
      var evaluation := SearchChild(board, ms, depth, i, alpha, b, false, ai, total);
      MinAdvance(vs, ms, alpha, beta, b, es, evaluated, minEval, bi, bestMove, evaluation);
      evaluated := evaluated + [(evaluation, move)];
      es := es + [evaluation];
      if Lt(Fin(evaluation), minEval) {
        minEval := Fin(evaluation);
        bestMove := move;
        bi := i;
      }
      b := Min(b, Fin(evaluation));
      if !Lt(alpha, b) {
        return;
      }
      i := i + 1;
    }
    MinFinish(vs, ms, alpha, beta, b, es, evaluated, minEval, bi, bestMove);
  }

  /** One iteration's child search: a row-by-row copy of the board gets the
      node's colour on move i's target and flip cells, and is searched one
      ply shallower with the other role and one more piece. */
  method SearchChild(board: array<Cell>, ms: seq<Entry>, depth: nat, i: nat, alpha: ExtInt, beta: ExtInt, maxi: bool, ai: Player, total: int)
    returns (evaluation: int)
    requires board.Length == 64 && ms == ValidMoves(board[..], ai) && depth > 0 && i < |ms|
    ensures Lt(alpha, beta) ==> FailSoft(ChildValues(board[..], ms, depth - 1, maxi, ai, total)[i], evaluation, alpha, beta)
    decreases depth, 0
  {
    ghost var b := board[..];
    var d: nat := depth - 1;
    var p := if maxi then ai else Opponent(ai);
    ValidMovesLookup(b, ai, i);
    FlipsFacts(b, ms[i].pos.r, ms[i].pos.c, ai);
    var newBoard := ChildBoard(board, ms[i], p);
    evaluation := SearchScore(newBoard, d, alpha, beta, !maxi, ai, total + 1);
    ChildValueAt(b, ms, depth, d, maxi, ai, total, i);
    assert b == board[..];
  }

  /** A row-by-row copy of the board with e's target and flip cells painted p. */
  method ChildBoard(board: array<Cell>, e: Entry, p: Player) returns (newBoard: array<Cell>)
    requires board.Length == 64 && OnBoard(e.pos.r, e.pos.c)
    requires forall q :: q in e.flips ==> OnBoard(q.r, q.c)
    ensures fresh(newBoard) && newBoard.Length == 64
    ensures newBoard[..] == PlaceAndFlip(board[..], e.pos, e.flips, p)
  {
    newBoard := CopyBoard(board);
    newBoard[8 * e.pos.r + e.pos.c] := p;
    PaintFlips(newBoard, e.flips, p);
  }

  /** The recursive call of a search loop, whose move and log are dropped. */
  method SearchScore(board: array<Cell>, depth: nat, alpha: ExtInt, beta: ExtInt, maximizing: bool, ai: Player, total: int)
    returns (score: int)
    requires board.Length == 64
    ensures Lt(alpha, beta) ==> FailSoft(Value(board[..], depth, maximizing, ai, total), score, alpha, beta)
    decreases depth, 4
  {
    var best, log;
    score, best, log := MinimaxAlphaBeta(board, depth, alpha, beta, maximizing, ai, total);
  }
}
