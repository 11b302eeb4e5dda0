/** The loops every copy of the engine runs over a board: the flip scan, the
    row-major move enumeration, piece counting and the "stable piece" count.
    Each method reads a 64-cell board array without changing it and is proved
    equal to the matching specification function of module Board (or of this
    module, for the stability scan). */
module Rules {
  import opened Board
  import opened BoardLemmas

  /** A known prefix followed by the outcome of the rest of a walk. */
  function Prepend(line: seq<Pos>, rest: Option<seq<Pos>>): Option<seq<Pos>> {
    match rest
    case Some(run) => Some(line + run)
    case None => None
  }

  lemma PrependStep(line: seq<Pos>, x: Pos, rest: Option<seq<Pos>>)
    ensures Prepend(line, Prepend([x], rest)) == Prepend(line + [x], rest)
  {
    if rest.Some? {
      assert line + ([x] + rest.value) == (line + [x]) + rest.value;
    }
  }

  /** One direction of the scan: walk over the opponent's pieces next to
      (r, c) and keep the run only if a piece of player closes it. */
  method ScanDirection(board: array<Cell>, ghost b: Board, r: int, c: int, dr: int, dc: int, player: Player) returns (line: seq<Pos>, closed: bool)
    requires board[..] == b && IsDir(dr, dc)
    ensures closed <==> Bracket(b, r + dr, c + dc, dr, dc, player).Some?
    ensures closed ==> line == DirFlips(b, r, c, (dr, dc), player)
  {
    line := [];
    var cr, cc := r + dr, c + dc;
    assert Prepend([], Bracket(b, cr, cc, dr, dc, player)) == Bracket(b, cr, cc, dr, dc, player) by {
      if Bracket(b, cr, cc, dr, dc, player).Some? {
        assert [] + Bracket(b, cr, cc, dr, dc, player).value == Bracket(b, cr, cc, dr, dc, player).value;
      }
    }
    while OnBoard(cr, cc) && board[8 * cr + cc] == Opponent(player)
      invariant Bracket(b, r + dr, c + dc, dr, dc, player) == Prepend(line, Bracket(b, cr, cc, dr, dc, player))
      decreases Reach(cr, cc, dr, dc)
    {
      PrependStep(line, Pos(cr, cc), Bracket(b, cr + dr, cc + dc, dr, dc, player));
      line := line + [Pos(cr, cc)];
      cr, cc := cr + dr, cc + dc;
    }
    closed := OnBoard(cr, cc) && board[8 * cr + cc] == player;
    if closed {
      assert Bracket(b, cr, cc, dr, dc, player) == Some([]);
      assert line + [] == line;
    }
  }

  lemma FlipsStep(b: Board, r: int, c: int, p: Player, k: nat, line: seq<Pos>, closed: bool)
    requires k < 8
    requires closed <==> Bracket(b, r + Dir(k).0, c + Dir(k).1, Dir(k).0, Dir(k).1, p).Some?
    requires closed ==> line == DirFlips(b, r, c, Dir(k), p)
    ensures closed ==> FlipsUpTo(b, r, c, p, k + 1) == FlipsUpTo(b, r, c, p, k) + line
    ensures !closed ==> FlipsUpTo(b, r, c, p, k + 1) == FlipsUpTo(b, r, c, p, k)
  {
    if !closed {
      assert FlipsUpTo(b, r, c, p, k) + [] == FlipsUpTo(b, r, c, p, k);
    }
  }

  /** The flip list of a move at (r, c) by player: for each direction in turn,
      the run of opponent cells that a piece of player closes off. */
  method PiecesToFlip(board: array<Cell>, ghost b: Board, r: int, c: int, player: Player) returns (flips: seq<Pos>)
    requires board[..] == b
    ensures flips == FlipsOf(b, r, c, player)
  {
    flips := [];
    for k := 0 to 8
      invariant board[..] == b
      invariant flips == FlipsUpTo(b, r, c, player, k)
    {
      var d := Dir(k);
      var line, closed := ScanDirection(board, b, r, c, d.0, d.1, player);
      FlipsStep(b, r, c, player, k, line, closed);
      if closed {
        flips := flips + line;
      }
    }
  }

  /** The legal moves of player as an insertion-ordered dictionary: every
      empty cell with a non-empty flip list, in row-major order. */
  method GetValidMoves(board: array<Cell>, player: Player) returns (moves: seq<Entry>)
    requires board.Length == 64
    ensures moves == ValidMoves(board[..], player)
  {
    ghost var b: Board := board[..];
    moves := [];
    for r := 0 to 8
      invariant board[..] == b
      invariant moves == MovesBelow(b, player, 8 * r)
    {
      moves := RowMoves(board, b, r, player, moves);
    }
  }

  /** Appends to moves, the legal moves of the rows above r, those of row r. */
  method RowMoves(board: array<Cell>, ghost b: Board, r: int, player: Player, above: seq<Entry>) returns (moves: seq<Entry>)
    requires board[..] == b && 0 <= r < 8
    requires above == MovesBelow(b, player, 8 * r)
    ensures moves == MovesBelow(b, player, 8 * (r + 1))
  {
    ghost var n := 8 * r;
    moves := above;
    for c := 0 to 8
      invariant board[..] == b
      invariant n == 8 * r + c
      invariant moves == MovesBelow(b, player, n)
    {
      moves := CellMove(board, b, r, c, n, player, moves);
      n := n + 1;
    }
  }

  /** Appends the move at cell (r, c), the i-th in row-major order, if the
      cell is empty and flips something, to the moves of the cells before it. */
  method CellMove(board: array<Cell>, ghost b: Board, r: int, c: int, ghost i: nat, player: Player, before: seq<Entry>) returns (after: seq<Entry>)
    requires board[..] == b && OnBoard(r, c) && i == 8 * r + c
    requires before == MovesBelow(b, player, i)
    ensures board[..] == b
    ensures after == before + EntryAt(b, player, i)
    ensures after == MovesBelow(b, player, i + 1)
  {
    PosOfIdx(r, c);
    after := before;
    if board[8 * r + c] == EMPTY {
      var f := PiecesToFlip(board, b, r, c, player);
      if f != [] {
        after := before + [Entry(Pos(r, c), f)];
      }
    }
  }

  lemma CountPrefix(s: seq<Cell>, i: nat, v: int)
    requires i < |s|
    ensures Count(s[..i + 1], v) == Count(s[..i], v) + (if s[i] == v then 1 else 0)
  {
    assert s[..i + 1][..i] == s[..i];
  }

  /** The number of cells holding v, summed row by row. */
  method CountPieces(board: array<Cell>, v: int) returns (n: nat)
    requires board.Length == 64
    ensures n == Count(board[..], v)
  {
    n := 0;
    for r := 0 to 8
      invariant n == Count(board[..8 * r], v)
    {
      for c := 0 to 8
        invariant n == Count(board[..8 * r + c], v)
      {
        CountPrefix(board[..], 8 * r + c, v);
        if board[8 * r + c] == v {
          n := n + 1;
        }
      }
    }
    assert board[..64] == board[..];
  }

  /** The score pair (black pieces, white pieces). */
  method GetScore(board: array<Cell>) returns (black: nat, white: nat)
    requires board.Length == 64
    ensures black == Count(board[..], BLACK) && white == Count(board[..], WHITE)
    ensures black + white <= 64
  {
    black := CountPieces(board, BLACK);
    white := CountPieces(board, WHITE);
    CountTotal(board[..]);
  }

  // ---------------------------------------------------------------------------
  // Board arrays: the start position, copies and painting
  // ---------------------------------------------------------------------------

  /** An empty grid with the four centre pieces of the standard start. */
  method NewInitialBoard() returns (board: array<Cell>)
    ensures fresh(board) && board.Length == 64 && board[..] == InitialBoard()
  {
    board := new Cell[64](_ => EMPTY);
    board[27], board[36] := WHITE, WHITE;
    board[28], board[35] := BLACK, BLACK;
  }

  /** A fresh array holding the same cells (the source's deep copy of the
      nested lists). */
  method CopyBoard(board: array<Cell>) returns (copy: array<Cell>)
    requires board.Length == 64
    ensures fresh(copy) && copy.Length == 64 && copy[..] == board[..]
  {
    copy := new Cell[64](i reads board => if 0 <= i < 64 then board[i] else EMPTY);
  }

  lemma PaintPrefix(b: Board, flips: seq<Pos>, i: nat, p: Player)
    requires i < |flips| && OnBoard(flips[i].r, flips[i].c)
    ensures PaintAll(b, flips[..i + 1], p) == PaintAll(b, flips[..i], p)[Idx(flips[i].r, flips[i].c) := p]
  {
    assert flips[..i + 1][..i] == flips[..i];
  }

  /** Sets every listed cell to p, in order. */
  method PaintFlips(board: array<Cell>, flips: seq<Pos>, p: Player)
    requires board.Length == 64 && forall q :: q in flips ==> OnBoard(q.r, q.c)
    modifies board
    ensures board[..] == PaintAll(old(board[..]), flips, p)
  {
    ghost var b: Board := board[..];
    for i := 0 to |flips|
      invariant board[..] == PaintAll(b, flips[..i], p)
    {
      var q := flips[i];
      assert q in flips;
      PaintPrefix(b, flips, i, p);
      board[8 * q.r + q.c] := p;
    }
    assert flips[..|flips|] == flips;
  }

  // ---------------------------------------------------------------------------
  // The "stable piece" scan
  // ---------------------------------------------------------------------------

  /** The four axes the stability scan checks: down, down-right, right, up-right. */
  function Axis(k: nat): (d: (int, int))
    requires k < 4
    ensures IsDir(d.0, d.1) && IsDir(-d.0, -d.1)
  {
    if k == 0 then (1, 0) else if k == 1 then (1, 1) else if k == 2 then (0, 1) else (-1, 1)
  }

  /** One side of an axis is "secure" when the walk from (r, c) along (dr, dc)
      meets a cell that is not p, or leaves the board. */
  predicate SideSecure(b: Board, r: int, c: int, dr: int, dc: int, p: Player)
    requires IsDir(dr, dc)
    decreases Reach(r, c, dr, dc)
  {
    !OnBoard(r, c) || At(b, r, c) != p || SideSecure(b, r + dr, c + dc, dr, dc, p)
  }

  predicate AxisSecure(b: Board, r: int, c: int, k: nat, p: Player)
    requires k < 4
  {
    var d := Axis(k);
    SideSecure(b, r + d.0, c + d.1, d.0, d.1, p) && SideSecure(b, r - d.0, c - d.1, -d.0, -d.1, p)
  }

  /** The piece on (r, c) counts as stable when both sides of all four axes are secure. */
  predicate Stable(b: Board, r: int, c: int, p: Player) {
    forall k :: 0 <= k < 4 ==> AxisSecure(b, r, c, k, p)
  }

  /** How many of the first n cells hold a stable piece of p. */
  function StableBelow(b: Board, p: Player, n: nat): nat
    requires n <= 64
  {
    if n == 0 then 0
    else
      var q := PosOf(n - 1);
      StableBelow(b, p, n - 1) + (if b[n - 1] == p && Stable(b, q.r, q.c, p) then 1 else 0)
  }

  /** Every walk ends on a non-p cell or off the board, so every side is secure. */
  lemma {:induction false} SideAlwaysSecure(b: Board, r: int, c: int, dr: int, dc: int, p: Player)
    requires IsDir(dr, dc)
    ensures SideSecure(b, r, c, dr, dc, p)
    decreases Reach(r, c, dr, dc)
  {
    if OnBoard(r, c) && At(b, r, c) == p {
      SideAlwaysSecure(b, r + dr, c + dc, dr, dc, p);
    }
  }

  lemma AlwaysStable(b: Board, r: int, c: int, p: Player)
    ensures Stable(b, r, c, p)
  {
    forall k | 0 <= k < 4 ensures AxisSecure(b, r, c, k, p) {
      var d := Axis(k);
      SideAlwaysSecure(b, r + d.0, c + d.1, d.0, d.1, p);
      SideAlwaysSecure(b, r - d.0, c - d.1, -d.0, -d.1, p);
    }
  }

  /** The stability count is just the piece count: no piece ever fails the test. */
  lemma {:induction false} StableIsCount(b: Board, p: Player, n: nat)
    requires n <= 64
    ensures StableBelow(b, p, n) == Count(b[..n], p)
  {
    if n > 0 {
      StableIsCount(b, p, n - 1);
      var q := PosOf(n - 1);
      AlwaysStable(b, q.r, q.c, p);
      CountPrefix(b, n - 1, p);
    }
  }

  /** Walks from (r, c) along (dr, dc) while the cells hold p. */
  method WalkSecure(board: array<Cell>, ghost b: Board, r: int, c: int, dr: int, dc: int, p: Player) returns (secure: bool)
    requires board[..] == b && IsDir(dr, dc)
    ensures secure == SideSecure(b, r, c, dr, dc, p)
  {
    secure := false;
    var cr, cc := r, c;
    while OnBoard(cr, cc)
      invariant SideSecure(b, r, c, dr, dc, p) == SideSecure(b, cr, cc, dr, dc, p)
      decreases Reach(cr, cc, dr, dc)
    {
      if board[8 * cr + cc] != p {
        secure := true;
        break;
      }
      cr, cc := cr + dr, cc + dc;
    }
    if !OnBoard(cr, cc) {
      secure := true;
    }
  }

  lemma AxisFromSides(b: Board, r: int, c: int, k: nat, p: Player, side1: bool, side2: bool)
    requires k < 4
    requires side1 == SideSecure(b, r + Axis(k).0, c + Axis(k).1, Axis(k).0, Axis(k).1, p)
    requires side2 == SideSecure(b, r - Axis(k).0, c - Axis(k).1, -Axis(k).0, -Axis(k).1, p)
    ensures AxisSecure(b, r, c, k, p) == (side1 && side2)
  {
  }

  /** Checks both sides of the four axes through (r, c), stopping at the
      first axis with an insecure side. */
  method IsStable(board: array<Cell>, ghost b: Board, r: int, c: int, p: Player) returns (isStable: bool)
    requires board[..] == b
    ensures isStable == Stable(b, r, c, p)
  {
    isStable := true;
    var k := 0;
    while k < 4
      invariant 0 <= k <= 4 && board[..] == b
      invariant isStable && forall j :: 0 <= j < k ==> AxisSecure(b, r, c, j, p)
    {
      var secure := CheckAxis(board, b, r, c, k, p);
      if !secure {
        isStable := false;
        break;
      }
      k := k + 1;
    }
  }

  /** Walks both sides of axis k through (r, c). */
  method CheckAxis(board: array<Cell>, ghost b: Board, r: int, c: int, k: nat, p: Player) returns (secure: bool)
    requires board[..] == b && k < 4
    ensures secure == AxisSecure(b, r, c, k, p)
  {
    var d := Axis(k);
    var side1 := WalkSecure(board, b, r + d.0, c + d.1, d.0, d.1, p);
    var side2 := WalkSecure(board, b, r - d.0, c - d.1, -d.0, -d.1, p);
    AxisFromSides(b, r, c, k, p, side1, side2);
    secure := side1 && side2;
  }

  /** The number of p's pieces that pass the stability test; by StableIsCount
      this is always the number of p's pieces. */
  method CountStablePieces(board: array<Cell>, p: Player) returns (n: nat)
    requires board.Length == 64
    ensures n == StableBelow(board[..], p, 64)
    ensures n == Count(board[..], p)
  {
    ghost var b: Board := board[..];
    n := 0;
    for r := 0 to 8
      invariant board[..] == b
      invariant n == StableBelow(b, p, 8 * r)
    {
      for c := 0 to 8
        invariant board[..] == b
        invariant n == StableBelow(b, p, 8 * r + c)
      {
        PosOfIdx(r, c);
        if board[8 * r + c] == p {
          var isStable := IsStable(board, b, r, c, p);
          if isStable {
            n := n + 1;
          }
        }
      }
    }
    StableIsCount(b, p, 64);
    assert b[..64] == b;
  }
}
