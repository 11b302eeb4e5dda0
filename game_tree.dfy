/** The game as a value, as the two phase-weighted Python copies (the backend
    and the enhanced desktop game) see it, and the minimax value their
    alpha-beta search approximates. */
module GameTree {
  import opened Board
  import opened BoardLemmas
  import opened Evaluation
  import opened Search

  /** The fields of a game object that the rules and the search read. */
  datatype Game = Game(board: Board, player: Player, moves: seq<Entry>, over: bool)

  /** The stored move list is the one get_valid_moves computes for the mover. */
  predicate Consistent(g: Game) {
    g.moves == ValidMoves(g.board, g.player)
  }

  /** A state reached by the constructor or by a move: finished, or the side
      to move has a move. */
  predicate Settled(g: Game) {
    g.over || g.moves != []
  }

  /** _switch_player: hand the turn to the opponent when it can move, else back
      to the mover, else end the game. A game once over stays over. */
  function SwitchPlayer(g: Game): Game {
    var t := NextTurn(g.board, g.player);
    Game(g.board, t.player, t.moves, g.over || t.over)
  }

  /** make_move: a coordinate that is not a key of the stored move list is
      rejected and nothing changes; otherwise the piece is placed, the stored
      flips are painted and the turn is handed over. */
  function MakeMove(g: Game, q: Pos): (Game, bool) {
    match Lookup(g.moves, q)
    case None => (g, false)
    case Some(flips) => (SwitchPlayer(Game(PlaceAndFlip(g.board, q, flips, g.player), g.player, g.moves, g.over)), true)
  }

  /** The value of g searched to the given depth without pruning: the
      evaluation at depth 0 or once the game is over, the value after a pass
      when the mover has no move, and otherwise the maximum (or minimum) of
      the children's values, one child per stored move in order. */
  function Value(g: Game, depth: nat, maxi: bool, ai: Player, total: int): int
    decreases depth, 2
  {
    if depth == 0 || g.over then DynamicScore(g.board, ai, total)
    else if g.moves == [] then Value(SwitchPlayer(g), depth - 1, !maxi, ai, total)
    else
      var vs := ChildValues(g, depth - 1, maxi, ai, total);
      if maxi then MaxOf(vs) else MinOf(vs)
  }

  /** The values of the children searched to depth d, in the order of the
      stored move list. */
  function ChildValues(g: Game, d: nat, maxi: bool, ai: Player, total: int): (vs: seq<int>)
    ensures |vs| == |g.moves|
    decreases d + 1, 1
  {
    seq(|g.moves|, k requires 0 <= k < |g.moves| => ChildValue(g, k, d, maxi, ai, total))
  }

  /** The value of the child reached by stored move k, searched to depth d
      with the other role and one more piece. */
  function ChildValue(g: Game, k: nat, d: nat, maxi: bool, ai: Player, total: int): int
    requires k < |g.moves|
    decreases d + 1, 0
  {
    Value(MakeMove(g, g.moves[k].pos).0, d, !maxi, ai, total + 1)
  }

  /** The three cases of Value, one lemma each, stated at depth d + 1. */
  lemma ValueLeaf(g: Game, depth: nat, maxi: bool, ai: Player, total: int)
    requires depth == 0 || g.over
    ensures Value(g, depth, maxi, ai, total) == DynamicScore(g.board, ai, total)
  {
  }

  lemma ValuePass(g: Game, d: nat, maxi: bool, ai: Player, total: int)
    requires !g.over && g.moves == []
    ensures Value(g, d + 1, maxi, ai, total) == Value(SwitchPlayer(g), d, !maxi, ai, total)
  {
  }

  lemma ValueNode(g: Game, d: nat, maxi: bool, ai: Player, total: int)
    requires !g.over && g.moves != []
    ensures Value(g, d + 1, maxi, ai, total) ==
      if maxi then MaxOf(ChildValues(g, d, maxi, ai, total)) else MinOf(ChildValues(g, d, maxi, ai, total))
  {
  }

  /** Entry i of the child values below a node searched to the given depth is
      the value, one ply shallower, of the child reached by stored move i. */
  lemma ChildValueAt(g: Game, depth: nat, d: nat, maxi: bool, ai: Player, total: int, i: nat)
    requires depth > 0 && d == depth - 1 && i < |g.moves|
    ensures ChildValues(g, depth - 1, maxi, ai, total)[i] == Value(MakeMove(g, g.moves[i].pos).0, d, !maxi, ai, total + 1)
  {
  }

  // ---------------------------------------------------------------------------
  // What a turn does
  // ---------------------------------------------------------------------------

  /** After a switch the stored moves are the mover's, and either someone can
      move (the opponent whenever it can) or neither side can and the game is over. */
  lemma SwitchPlayerFacts(g: Game)
    ensures var h := SwitchPlayer(g);
      && h.board == g.board && Consistent(h) && Settled(h)
      && (ValidMoves(g.board, Opponent(g.player)) != [] ==> h.player == Opponent(g.player) && h.moves != [])
      && (ValidMoves(g.board, Opponent(g.player)) == [] ==> h.player == g.player)
      && (h.moves == [] <==> ValidMoves(g.board, g.player) == [] && ValidMoves(g.board, Opponent(g.player)) == [])
      && (h.over <==> g.over || h.moves == [])
  {
  }

  /** A stored move is accepted exactly when it is a key; then the board is
      the old one with the move applied, one more cell is occupied, and the
      result is consistent and settled. */
  lemma MakeMoveFacts(g: Game, q: Pos)
    requires Consistent(g)
    ensures MakeMove(g, q).1 <==> q in Keys(g.moves)
    ensures !MakeMove(g, q).1 ==> MakeMove(g, q).0 == g
    ensures MakeMove(g, q).1 ==>
      var h := MakeMove(g, q).0;
      && h.board == PlaceAndFlip(g.board, q, FlipsOf(g.board, q.r, q.c, g.player), g.player)
      && Occupied(h.board) == Occupied(g.board) + 1
      && Consistent(h) && Settled(h)
  {
    if q in Keys(g.moves) {
      ValidMoveIff(g.board, g.player, q.r, q.c);
      MoveEffect(g.board, g.player, q);
      var flips := FlipsOf(g.board, q.r, q.c, g.player);
      SwitchPlayerFacts(Game(PlaceAndFlip(g.board, q, flips, g.player), g.player, g.moves, g.over));
    }
  }

  /** If the root's piece count is the number of occupied cells, every child
      is searched with the true count of its own board: one more per move. */
  lemma ChildPieceCount(g: Game, k: nat, total: int)
    requires Consistent(g) && k < |g.moves| && total == Occupied(g.board)
    ensures MakeMove(g, g.moves[k].pos).1
    ensures total + 1 == Occupied(MakeMove(g, g.moves[k].pos).0.board)
  {
    assert g.moves[k].pos == Keys(g.moves)[k];
    MakeMoveFacts(g, g.moves[k].pos);
  }

  // ---------------------------------------------------------------------------
  // The pass branch is dead from settled states
  // ---------------------------------------------------------------------------

  /** Minimax with the pass branch removed (a mover without moves simply
      evaluates). */
  function ValueNoPass(g: Game, depth: nat, maxi: bool, ai: Player, total: int): int
    decreases depth, 2
  {
    if depth == 0 || g.over || g.moves == [] then DynamicScore(g.board, ai, total)
    else
      var vs := ChildValuesNoPass(g, depth - 1, maxi, ai, total);
      if maxi then MaxOf(vs) else MinOf(vs)
  }

  function ChildValuesNoPass(g: Game, d: nat, maxi: bool, ai: Player, total: int): (vs: seq<int>)
    ensures |vs| == |g.moves|
    decreases d + 1, 1
  {
    seq(|g.moves|, k requires 0 <= k < |g.moves| => ChildValueNoPass(g, k, d, maxi, ai, total))
  }

  function ChildValueNoPass(g: Game, k: nat, d: nat, maxi: bool, ai: Player, total: int): int
    requires k < |g.moves|
    decreases d + 1, 0
  {
    ValueNoPass(MakeMove(g, g.moves[k].pos).0, d, !maxi, ai, total + 1)
  }

  /** From a consistent settled state (the constructor's, or any reached by a
      move) the search never takes its pass branch: its value agrees with the
      pass-free definition at every depth. */
  lemma {:induction false} SettledNeverPasses(g: Game, depth: nat, maxi: bool, ai: Player, total: int)
    requires Consistent(g) && Settled(g)
    ensures Value(g, depth, maxi, ai, total) == ValueNoPass(g, depth, maxi, ai, total)
    decreases depth, 4
  {
    if depth > 0 && !g.over {
      InnerNeverPasses(g, depth - 1, maxi, ai, total);
    }
  }

  lemma {:induction false} InnerNeverPasses(g: Game, d: nat, maxi: bool, ai: Player, total: int)
    requires Consistent(g) && g.moves != [] && !g.over
    ensures Value(g, d + 1, maxi, ai, total) == ValueNoPass(g, d + 1, maxi, ai, total)
    decreases d + 1, 3
  {
    ChildrenNeverPass(g, d, maxi, ai, total);
  }

  lemma {:induction false} ChildrenNeverPass(g: Game, d: nat, maxi: bool, ai: Player, total: int)
    requires Consistent(g)
    ensures ChildValues(g, d, maxi, ai, total) == ChildValuesNoPass(g, d, maxi, ai, total)
    decreases d + 1, 2
  {
    var vs := ChildValues(g, d, maxi, ai, total);
    var ws := ChildValuesNoPass(g, d, maxi, ai, total);
    forall i | 0 <= i < |g.moves| ensures vs[i] == ws[i] {
      ChildNeverPasses(g, d, maxi, ai, total, i);
    }
  }

  lemma {:induction false} ChildNeverPasses(g: Game, d: nat, maxi: bool, ai: Player, total: int, i: nat)
    requires Consistent(g) && i < |g.moves|
    ensures ChildValues(g, d, maxi, ai, total)[i] == ChildValuesNoPass(g, d, maxi, ai, total)[i]
    decreases d, 5
  {
    ChildSettled(g, i);
    SettledNeverPasses(MakeMove(g, g.moves[i].pos).0, d, !maxi, ai, total + 1);
  }

  /** Every move from a consistent state leads to a consistent settled state. */
  lemma ChildSettled(g: Game, i: nat)
    requires Consistent(g) && i < |g.moves|
    ensures Consistent(MakeMove(g, g.moves[i].pos).0) && Settled(MakeMove(g, g.moves[i].pos).0)
  {
    MakeMoveSettles(g, g.moves[i].pos);
  }

  lemma MakeMoveSettles(g: Game, q: Pos)
    ensures (Consistent(MakeMove(g, q).0) && Settled(MakeMove(g, q).0)) || MakeMove(g, q).0 == g
  {
    match Lookup(g.moves, q)
    case None =>
    case Some(flips) =>
      SwitchPlayerFacts(Game(PlaceAndFlip(g.board, q, flips, g.player), g.player, g.moves, g.over));
  }
}
