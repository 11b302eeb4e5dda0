/** The static evaluators. The phase-weighted one is shared, text for text,
    by the backend, the enhanced desktop game and the web worker; the classic
    desktop game uses a fixed-weight one. */
module Evaluation {
  import opened Board
  import opened BoardLemmas
  import opened Rules

  datatype Weights = Weights(piece: int, mobility: int, corner: int, stability: int)

  /** The phase weights as the Python copies choose them: opening below 20
      pieces, mid-game below 52, end-game otherwise. */
  function PhaseWeights(total: int): Weights {
    if total < 20 then Weights(1, 15, 100, 80)
    else if total < 52 then Weights(5, 10, 100, 100)
    else Weights(20, 5, 120, 120)
  }

  /** One of the web worker's ternary chains. */
  function Ternary(total: int, opening: int, middle: int, ending: int): int {
    if total < 20 then opening else if total < 52 then middle else ending
  }

  /** The weights as the web worker chooses them, one ternary chain per weight. */
  function ChainWeights(total: int): Weights {
    Weights(Ternary(total, 1, 5, 20), Ternary(total, 15, 10, 5),
            Ternary(total, 100, 100, 120), Ternary(total, 80, 100, 120))
  }

  /** The worker's four ternary chains pick the same weights as the Python
      if/elif chain, at the same thresholds. */
  lemma ChainWeightsAgree(total: int)
    ensures ChainWeights(total) == PhaseWeights(total)
    ensures total < 20 ==> PhaseWeights(total) == Weights(1, 15, 100, 80)
    ensures 20 <= total < 52 ==> PhaseWeights(total) == Weights(5, 10, 100, 100)
    ensures 52 <= total ==> PhaseWeights(total) == Weights(20, 5, 120, 120)
  {
  }

  // ---------------------------------------------------------------------------
  // Corners
  // ---------------------------------------------------------------------------

  /** The corners in the order the evaluators list them. */
  function Corner(i: nat): (q: Pos)
    requires i < 4
    ensures OnBoard(q.r, q.c)
  {
    if i == 0 then Pos(0, 0) else if i == 1 then Pos(0, 7) else if i == 2 then Pos(7, 0) else Pos(7, 7)
  }

  /** How many of the first n corners hold v. */
  function CornersBelow(b: Board, v: int, n: nat): nat
    requires n <= 4
  {
    if n == 0 then 0
    else CornersBelow(b, v, n - 1) + (if At(b, Corner(n - 1).r, Corner(n - 1).c) == v then 1 else 0)
  }

  function CornerCount(b: Board, v: int): nat {
    CornersBelow(b, v, 4)
  }

  /** The three offsets the corner penalty probes with. */
  function Offset(j: nat): (int, int)
    requires j < 3
  {
    if j == 0 then (0, 1) else if j == 1 then (1, 0) else (1, 1)
  }

  /** 1 when (r, c) is on the board and holds p. */
  function Hit(b: Board, r: int, c: int, p: Player): nat {
    if OnBoard(r, c) && At(b, r, c) == p then 1 else 0
  }

  /** The three probes of offset j around (r, c): (+dr, +dc), (-dr, +dc), (+dr, -dc). */
  function ProbeHits(b: Board, r: int, c: int, p: Player, j: nat): nat
    requires j < 3
  {
    var d := Offset(j);
    Hit(b, r + d.0, c + d.1, p) + Hit(b, r - d.0, c + d.1, p) + Hit(b, r + d.0, c - d.1, p)
  }

  function HitsBelow(b: Board, r: int, c: int, p: Player, n: nat): nat
    requires n <= 3
  {
    if n == 0 then 0 else HitsBelow(b, r, c, p, n - 1) + ProbeHits(b, r, c, p, n - 1)
  }

  /** The penalty of the first n corners: 15 per probe hit around each empty corner. */
  function PenaltyBelow(b: Board, p: Player, n: nat): int
    requires n <= 4
  {
    if n == 0 then 0
    else
      var q := Corner(n - 1);
      PenaltyBelow(b, p, n - 1) + (if At(b, q.r, q.c) == EMPTY then -15 * HitsBelow(b, q.r, q.c, p, 3) else 0)
  }

  function CornerPenalty(b: Board, p: Player): int {
    PenaltyBelow(b, p, 4)
  }

  /** 1 when (r, c) holds p (for cells known to be on the board). */
  function Own(b: Board, r: int, c: int, p: Player): nat
    requires OnBoard(r, c)
  {
    if At(b, r, c) == p then 1 else 0
  }

  function IfEmpty(b: Board, q: Pos, x: int): int
    requires OnBoard(q.r, q.c)
  {
    if At(b, q.r, q.c) == EMPTY then x else 0
  }

  lemma HitsUnfold(b: Board, r: int, c: int, p: Player)
    ensures HitsBelow(b, r, c, p, 3) == ProbeHits(b, r, c, p, 0) + ProbeHits(b, r, c, p, 1) + ProbeHits(b, r, c, p, 2)
  {
    assert HitsBelow(b, r, c, p, 3) == HitsBelow(b, r, c, p, 2) + ProbeHits(b, r, c, p, 2);
    assert HitsBelow(b, r, c, p, 2) == HitsBelow(b, r, c, p, 1) + ProbeHits(b, r, c, p, 1);
    assert HitsBelow(b, r, c, p, 1) == ProbeHits(b, r, c, p, 0);
  }

  lemma PenaltyCorner0(b: Board, p: Player)
    ensures PenaltyBelow(b, p, 1) == -15 * IfEmpty(b, Pos(0, 0), 2 * Own(b, 0, 1, p) + 2 * Own(b, 1, 0, p) + Own(b, 1, 1, p))
  {
    HitsUnfold(b, 0, 0, p);
    assert ProbeHits(b, 0, 0, p, 0) == 2 * Own(b, 0, 1, p);
    assert ProbeHits(b, 0, 0, p, 1) == 2 * Own(b, 1, 0, p);
    assert ProbeHits(b, 0, 0, p, 2) == Own(b, 1, 1, p);
  }

  lemma PenaltyCorner1(b: Board, p: Player)
    ensures PenaltyBelow(b, p, 2) == PenaltyBelow(b, p, 1) - 15 * IfEmpty(b, Pos(0, 7), Own(b, 0, 6, p) + 2 * Own(b, 1, 7, p) + Own(b, 1, 6, p))
  {
    HitsUnfold(b, 0, 7, p);
    assert ProbeHits(b, 0, 7, p, 0) == Own(b, 0, 6, p);
    assert ProbeHits(b, 0, 7, p, 1) == 2 * Own(b, 1, 7, p);
    assert ProbeHits(b, 0, 7, p, 2) == Own(b, 1, 6, p);
  }

  lemma PenaltyCorner2(b: Board, p: Player)
    ensures PenaltyBelow(b, p, 3) == PenaltyBelow(b, p, 2) - 15 * IfEmpty(b, Pos(7, 0), 2 * Own(b, 7, 1, p) + Own(b, 6, 0, p) + Own(b, 6, 1, p))
  {
    HitsUnfold(b, 7, 0, p);
    assert ProbeHits(b, 7, 0, p, 0) == 2 * Own(b, 7, 1, p);
    assert ProbeHits(b, 7, 0, p, 1) == Own(b, 6, 0, p);
    assert ProbeHits(b, 7, 0, p, 2) == Own(b, 6, 1, p);
  }

  lemma PenaltyCorner3(b: Board, p: Player)
    ensures PenaltyBelow(b, p, 4) == PenaltyBelow(b, p, 3) - 15 * IfEmpty(b, Pos(7, 7), Own(b, 7, 6, p) + Own(b, 6, 7, p))
  {
    HitsUnfold(b, 7, 7, p);
    assert ProbeHits(b, 7, 7, p, 0) == Own(b, 7, 6, p);
    assert ProbeHits(b, 7, 7, p, 1) == Own(b, 6, 7, p);
    assert ProbeHits(b, 7, 7, p, 2) == 0;
  }

  /** The probes as written land on the board only at these cells: around
      (0,0) the two edge neighbours count twice and the diagonal once; around
      (0,7) the lower edge neighbour twice, the others once; around (7,0) the
      right edge neighbour twice, the others once; around (7,7) each edge
      neighbour once and the diagonal neighbour (6,6) never. */
  lemma CornerPenaltyClosedForm(b: Board, p: Player)
    ensures CornerPenalty(b, p) == -15 * (
      IfEmpty(b, Pos(0, 0), 2 * Own(b, 0, 1, p) + 2 * Own(b, 1, 0, p) + Own(b, 1, 1, p)) +
      IfEmpty(b, Pos(0, 7), Own(b, 0, 6, p) + 2 * Own(b, 1, 7, p) + Own(b, 1, 6, p)) +
      IfEmpty(b, Pos(7, 0), 2 * Own(b, 7, 1, p) + Own(b, 6, 0, p) + Own(b, 6, 1, p)) +
      IfEmpty(b, Pos(7, 7), Own(b, 7, 6, p) + Own(b, 6, 7, p)))
  {
    PenaltyCorner0(b, p);
    PenaltyCorner1(b, p);
    PenaltyCorner2(b, p);
    PenaltyCorner3(b, p);
  }

  /** The corner penalty is never positive and at most 15 * 15 in size: the
      probes around the four corners reach at most 5, 4, 4 and 2 hits. */
  lemma CornerPenaltyBounds(b: Board, p: Player)
    ensures -225 <= CornerPenalty(b, p) <= 0
  {
    CornerPenaltyClosedForm(b, p);
  }

  /** b and b' have p's pieces on the same cells. */
  predicate SameOwn(b: Board, b': Board, p: Player) {
    forall i :: 0 <= i < 64 ==> (b[i] == p <==> b'[i] == p)
  }

  lemma HitSame(b: Board, b': Board, p: Player, r: int, c: int)
    requires SameOwn(b, b', p)
    ensures Hit(b, r, c, p) == Hit(b', r, c, p)
  {
    if OnBoard(r, c) {
      assert b[Idx(r, c)] == p <==> b'[Idx(r, c)] == p;
    }
  }

  lemma {:induction false} HitsSame(b: Board, b': Board, p: Player, r: int, c: int, n: nat)
    requires n <= 3 && SameOwn(b, b', p)
    ensures HitsBelow(b, r, c, p, n) == HitsBelow(b', r, c, p, n)
  {
    if n > 0 {
      HitsSame(b, b', p, r, c, n - 1);
      var d := Offset(n - 1);
      HitSame(b, b', p, r + d.0, c + d.1);
      HitSame(b, b', p, r - d.0, c + d.1);
      HitSame(b, b', p, r + d.0, c - d.1);
    }
  }

  lemma {:induction false} PenaltySame(b: Board, b': Board, p: Player, n: nat)
    requires n <= 4 && SameOwn(b, b', p)
    requires forall i :: 0 <= i < 4 ==>
      (At(b, Corner(i).r, Corner(i).c) == EMPTY <==> At(b', Corner(i).r, Corner(i).c) == EMPTY)
    ensures PenaltyBelow(b, p, n) == PenaltyBelow(b', p, n)
  {
    if n > 0 {
      PenaltySame(b, b', p, n - 1);
      HitsSame(b, b', p, Corner(n - 1).r, Corner(n - 1).c, 3);
    }
  }

  /** The penalty reads nothing but the corners' emptiness and which cells hold
      p: two boards that agree on those get the same penalty. */
  lemma CornerPenaltyOwnPieces(b: Board, b': Board, p: Player)
    requires forall i :: 0 <= i < 64 ==> (b[i] == p <==> b'[i] == p)
    requires forall i :: 0 <= i < 4 ==>
      (At(b, Corner(i).r, Corner(i).c) == EMPTY <==> At(b', Corner(i).r, Corner(i).c) == EMPTY)
    ensures CornerPenalty(b, p) == CornerPenalty(b', p)
  {
    PenaltySame(b, b', p, 4);
  }

  // ---------------------------------------------------------------------------
  // The phase-weighted evaluator
  // ---------------------------------------------------------------------------

  /** The mobility term, with the guard the source puts around it. */
  function MobilityTerm(w: Weights, mine: int, theirs: int): int {
    if mine + theirs > 0 then w.mobility * (mine - theirs) else 0
  }

  /** The score of b for p under weights w: piece difference, guarded mobility
      difference, corner difference, empty-corner penalty and the difference
      of the "stable" counts. */
  function WeightedScore(b: Board, p: Player, w: Weights): int {
    var o := Opponent(p);
    w.piece * (Count(b, p) - Count(b, o))
    + MobilityTerm(w, |ValidMoves(b, p)|, |ValidMoves(b, o)|)
    + w.corner * (CornerCount(b, p) - CornerCount(b, o))
    + CornerPenalty(b, p)
    + w.stability * (StableBelow(b, p, 64) - StableBelow(b, o, 64))
  }

  function DynamicScore(b: Board, p: Player, total: int): int {
    WeightedScore(b, p, PhaseWeights(total))
  }

  /** The mobility guard never matters: when both move counts are 0 the
      difference it guards is 0 as well. */
  lemma MobilityGuardIrrelevant(w: Weights, mine: nat, theirs: nat)
    ensures MobilityTerm(w, mine, theirs) == w.mobility * (mine - theirs)
  {
  }

  /** Since every piece passes the stability test, the "stability" term is a
      second piece-difference term, and the score is a plain weighted sum. */
  lemma WeightedScoreClosedForm(b: Board, p: Player, w: Weights)
    ensures var o := Opponent(p);
      WeightedScore(b, p, w) ==
        (w.piece + w.stability) * (Count(b, p) - Count(b, o))
        + w.mobility * (|ValidMoves(b, p)| - |ValidMoves(b, o)|)
        + w.corner * (CornerCount(b, p) - CornerCount(b, o))
        + CornerPenalty(b, p)
  {
    var o := Opponent(p);
    StableIsCount(b, p, 64);
    StableIsCount(b, o, 64);
    assert b[..64] == b;
    ClosedFormSum(w, Count(b, p) - Count(b, o), |ValidMoves(b, p)|, |ValidMoves(b, o)|,
      CornerCount(b, p) - CornerCount(b, o), CornerPenalty(b, p), StableBelow(b, p, 64) - StableBelow(b, o, 64));
  }

  /** The arithmetic behind WeightedScoreClosedForm, on plain numbers. */
  lemma ClosedFormSum(w: Weights, pieces: int, mine: nat, theirs: nat, corners: int, penalty: int, stable: int)
    requires stable == pieces
    ensures w.piece * pieces + MobilityTerm(w, mine, theirs) + w.corner * corners + penalty + w.stability * stable
      == (w.piece + w.stability) * pieces + w.mobility * (mine - theirs) + w.corner * corners + penalty
  {
    MobilityGuardIrrelevant(w, mine, theirs);
    assert w.piece * pieces + w.stability * pieces == (w.piece + w.stability) * pieces;
  }

  /** The corner counts, as the source's corner loop accumulates them. */
  method CountCorners(board: array<Cell>, player: Player) returns (mine: nat, theirs: nat)
    requires board.Length == 64
    ensures mine == CornerCount(board[..], player) && theirs == CornerCount(board[..], Opponent(player))
  {
    mine, theirs := 0, 0;
    for i := 0 to 4
      invariant mine == CornersBelow(board[..], player, i)
      invariant theirs == CornersBelow(board[..], Opponent(player), i)
    {
      var q := Corner(i);
      if board[8 * q.r + q.c] == player {
        mine := mine + 1;
      } else if board[8 * q.r + q.c] == Opponent(player) {
        theirs := theirs + 1;
      }
    }
  }

  /** One probe of the penalty loop: 15 off when (r, c) is on the board and holds p. */
  method Probe(board: array<Cell>, ghost b: Board, r: int, c: int, player: Player, score0: int) returns (score: int)
    requires board[..] == b
    ensures score == score0 - 15 * Hit(b, r, c, player)
  {
    score := score0;
    if OnBoard(r, c) && board[8 * r + c] == player {
      score := score - 15;
    }
  }

  /** The probes around one empty corner. */
  method PenalizeCorner(board: array<Cell>, ghost b: Board, q: Pos, player: Player, score0: int) returns (score: int)
    requires board[..] == b
    ensures score == score0 - 15 * HitsBelow(b, q.r, q.c, player, 3)
  {
    score := score0;
    for j := 0 to 3
      invariant board[..] == b
      invariant score == score0 - 15 * HitsBelow(b, q.r, q.c, player, j)
    {
      score := ProbeOffset(board, b, q, j, player, score);
    }
  }

  /** The three probes of one offset around corner q. */
  method ProbeOffset(board: array<Cell>, ghost b: Board, q: Pos, j: nat, player: Player, score0: int) returns (score: int)
    requires board[..] == b && j < 3
    ensures score == score0 - 15 * ProbeHits(b, q.r, q.c, player, j)
  {
    var d := Offset(j);
    score := Probe(board, b, q.r + d.0, q.c + d.1, player, score0);
    score := Probe(board, b, q.r - d.0, q.c + d.1, player, score);
    score := Probe(board, b, q.r + d.0, q.c - d.1, player, score);
  }

  /** The empty-corner penalty loop: 15 off per probe that finds p. */
  method PenalizeCorners(board: array<Cell>, player: Player, score0: int) returns (score: int)
    requires board.Length == 64
    ensures score == score0 + CornerPenalty(board[..], player)
  {
    ghost var b: Board := board[..];
    score := score0;
    for i := 0 to 4
      invariant board[..] == b
      invariant score == score0 + PenaltyBelow(b, player, i)
    {
      var q := Corner(i);
      if board[8 * q.r + q.c] == EMPTY {
        score := PenalizeCorner(board, b, q, player, score);
      }
    }
  }

  /** The body shared by every phase-weighted evaluator, once the weights are chosen. */
  method ScoreWithWeights(board: array<Cell>, player: Player, w: Weights) returns (score: int)
    requires board.Length == 64
    ensures score == WeightedScore(board[..], player, w)
  {
    ghost var b: Board := board[..];
    var opponent := Opponent(player);
    score := 0;
    var myPieces: int := CountPieces(board, player);
    var oppPieces: int := CountPieces(board, opponent);
    score := score + w.piece * (myPieces - oppPieces);
    ghost var pieceTerm := score;

    var myMoveList := GetValidMoves(board, player);
    var oppMoveList := GetValidMoves(board, opponent);
    var myMoves, oppMoves := |myMoveList|, |oppMoveList|;
    if myMoves + oppMoves > 0 {
      score := score + w.mobility * (myMoves - oppMoves);
    }
    assert score == pieceTerm + MobilityTerm(w, myMoves, oppMoves);

    var myCorners: int, oppCorners: int := CountCorners(board, player);
    score := score + w.corner * (myCorners - oppCorners);
    score := PenalizeCorners(board, player, score);

    var myStable: int := CountStablePieces(board, player);
    var oppStable: int := CountStablePieces(board, opponent);
    score := score + w.stability * (myStable - oppStable);
    assert board[..] == b;
  }

  /** dynamic_evaluate_board of the Python copies. */
  method DynamicEvaluateBoard(board: array<Cell>, player: Player, totalPieces: int) returns (score: int)
    requires board.Length == 64
    ensures score == DynamicScore(board[..], player, totalPieces)
  {
    var w: Weights;
    if totalPieces < 20 {
      w := Weights(1, 15, 100, 80);
    } else if totalPieces < 52 {
      w := Weights(5, 10, 100, 100);
    } else {
      w := Weights(20, 5, 120, 120);
    }
    score := ScoreWithWeights(board, player, w);
  }

  // ---------------------------------------------------------------------------
  // The classic fixed-weight evaluator
  // ---------------------------------------------------------------------------

  /** Piece difference + 5 * mobility difference + 50 * corner difference. */
  function EvaluateBoard(b: Board, p: Player): int {
    var o := Opponent(p);
    1 * (Count(b, p) - Count(b, o))
    + 5 * (|ValidMoves(b, p)| - |ValidMoves(b, o)|)
    + 50 * (CornerCount(b, p) - CornerCount(b, o))
  }

  /** What is good for one side is exactly as bad for the other. */
  lemma EvaluateAntisymmetric(b: Board, p: Player)
    ensures EvaluateBoard(b, p) == -EvaluateBoard(b, Opponent(p))
  {
    assert Opponent(Opponent(p)) == p;
  }

  /** The phase-weighted score is not antisymmetric: only the mover's own
      pieces are penalized next to empty corners, so the two sides' scores
      sum to the two penalties. */
  lemma DynamicScoreSum(b: Board, p: Player, total: int)
    ensures DynamicScore(b, p, total) + DynamicScore(b, Opponent(p), total) ==
      CornerPenalty(b, p) + CornerPenalty(b, Opponent(p))
  {
    var w := PhaseWeights(total);
    WeightedScoreClosedForm(b, p, w);
    WeightedScoreClosedForm(b, Opponent(p), w);
    assert Opponent(Opponent(p)) == p;
  }
}
