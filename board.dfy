/** The Othello board and the rules that every copy of the engine shares:
    the flip-set scan, legal-move enumeration in row-major order, move
    application and piece counting. Everything here is a pure specification;
    module Rules holds the loops that the source runs. */
module Board {

  datatype Option<T> = None | Some(value: T)

  const EMPTY: int := 0
  const BLACK: int := 1
  const WHITE: int := -1

  /** A cell holds -1 (white), 0 (empty) or 1 (black). */
  type Cell = x: int | -1 <= x <= 1

  /** The side to move is always black (1) or white (-1). */
  type Player = p: int | p == 1 || p == -1 witness 1

  /** The source's `-player`. */
  function Opponent(p: Player): Player {
    -(p as int)
  }

  /** The 8x8 grid, flattened row by row: cell (r, c) is at index 8 * r + c. */
  type Board = b: seq<Cell> | |b| == 64 witness seq(64, _ => 0)

  datatype Pos = Pos(r: int, c: int)

  predicate OnBoard(r: int, c: int) {
    0 <= r < 8 && 0 <= c < 8
  }

  function Idx(r: int, c: int): (i: nat)
    requires OnBoard(r, c)
    ensures i < 64
  {
    8 * r + c
  }

  function PosOf(i: nat): (q: Pos)
    requires i < 64
    ensures OnBoard(q.r, q.c) && Idx(q.r, q.c) == i
  {
    Pos(i / 8, i % 8)
  }

  lemma PosOfIdx(r: int, c: int)
    requires OnBoard(r, c)
    ensures PosOf(Idx(r, c)) == Pos(r, c)
  {
  }

  function IndexOf(q: Pos): (i: nat)
    requires OnBoard(q.r, q.c)
    ensures i < 64
  {
    Idx(q.r, q.c)
  }

  function At(b: Board, r: int, c: int): Cell
    requires OnBoard(r, c)
  {
    b[Idx(r, c)]
  }

  // ---------------------------------------------------------------------------
  // Directions
  // ---------------------------------------------------------------------------

  /** The eight scan directions, in the order the source lists them. */
  const DIRECTIONS: seq<(int, int)> := [(-1, -1), (-1, 0), (-1, 1), (0, -1), (0, 1), (1, -1), (1, 0), (1, 1)]

  function Dir(k: nat): (d: (int, int))
    requires k < 8
    ensures IsDir(d.0, d.1)
  {
    DIRECTIONS[k]
  }

  predicate IsDir(dr: int, dc: int) {
    -1 <= dr <= 1 && -1 <= dc <= 1 && (dr != 0 || dc != 0)
  }

  function Clip(x: int): nat {
    if x < 0 then 0 else x
  }

  /** How many steps a walk from (r, c) along (dr, dc) can still take on the board. */
  function Reach(r: int, c: int, dr: int, dc: int): nat {
    if dr > 0 then Clip(8 - r)
    else if dr < 0 then Clip(r + 1)
    else if dc > 0 then Clip(8 - c)
    else Clip(c + 1)
  }

  function Sign(x: int): int {
    if x > 0 then 1 else if x < 0 then -1 else 0
  }

  function Abs(x: int): nat {
    if x < 0 then -x else x
  }

  /** q lies strictly beyond (r, c) on the ray that leaves (r, c) along (dr, dc). */
  predicate OnRay(r: int, c: int, dr: int, dc: int, q: Pos) {
    Sign(q.r - r) == dr && Sign(q.c - c) == dc &&
    (dr == 0 || dc == 0 || Abs(q.r - r) == Abs(q.c - c))
  }

  /** Orders the directions: Rank(Dir(k)) increases with k. */
  function Rank(d: (int, int)): int {
    3 * d.0 + d.1
  }

  // ---------------------------------------------------------------------------
  // Flip sets
  // ---------------------------------------------------------------------------

  /** Walking from (r, c) along (dr, dc): Some(run) when a (possibly empty)
      run of opponent cells starting at (r, c) ends on a cell of p, None when
      it ends on an empty cell or runs off the board. */
  function Bracket(b: Board, r: int, c: int, dr: int, dc: int, p: Player): Option<seq<Pos>>
    requires IsDir(dr, dc)
    decreases Reach(r, c, dr, dc)
  {
    if !OnBoard(r, c) then None
    else if At(b, r, c) == Opponent(p) then
      match Bracket(b, r + dr, c + dc, dr, dc, p)
      case Some(run) => Some([Pos(r, c)] + run)
      case None => None
    else if At(b, r, c) == p then Some([])
    else None
  }

  /** The cells a move at (r, c) by p flips along direction d. */
  function DirFlips(b: Board, r: int, c: int, d: (int, int), p: Player): seq<Pos>
    requires IsDir(d.0, d.1)
  {
    match Bracket(b, r + d.0, c + d.1, d.0, d.1, p)
    case Some(run) => run
    case None => []
  }

  /** The flips along the first k directions, concatenated in direction order. */
  function FlipsUpTo(b: Board, r: int, c: int, p: Player, k: nat): seq<Pos>
    requires k <= 8
  {
    if k == 0 then [] else FlipsUpTo(b, r, c, p, k - 1) + DirFlips(b, r, c, Dir(k - 1), p)
  }

  /** The flip set of a move at (r, c) by p. */
  function FlipsOf(b: Board, r: int, c: int, p: Player): seq<Pos> {
    FlipsUpTo(b, r, c, p, |DIRECTIONS|)
  }

  predicate NoDup<T(==)>(s: seq<T>) {
    forall i, j :: 0 <= i < j < |s| ==> s[i] != s[j]
  }

  // ---------------------------------------------------------------------------
  // Legal moves: an ordered dictionary from coordinates to flip sets
  // ---------------------------------------------------------------------------

  datatype Entry = Entry(pos: Pos, flips: seq<Pos>)

  function EntryAt(b: Board, p: Player, i: nat): seq<Entry>
    requires i < 64
  {
    var q := PosOf(i);
    var flips := FlipsOf(b, q.r, q.c, p);
    if b[i] == EMPTY && flips != [] then [Entry(q, flips)] else []
  }

  /** The legal moves among the first n cells in row-major order. */
  function MovesBelow(b: Board, p: Player, n: nat): seq<Entry>
    requires n <= 64
  {
    if n == 0 then [] else MovesBelow(b, p, n - 1) + EntryAt(b, p, n - 1)
  }

  /** All legal moves of p, in row-major order. */
  function ValidMoves(b: Board, p: Player): seq<Entry> {
    MovesBelow(b, p, 64)
  }

  function Keys(m: seq<Entry>): (ks: seq<Pos>)
    ensures |ks| == |m| && forall k :: 0 <= k < |m| ==> ks[k] == m[k].pos
  {
    if m == [] then [] else [m[0].pos] + Keys(m[1..])
  }

  /** Dictionary lookup: the flips stored under the first entry for q. */
  function Lookup(m: seq<Entry>, q: Pos): (f: Option<seq<Pos>>)
    ensures f.Some? <==> q in Keys(m)
  {
    if m == [] then None else if m[0].pos == q then Some(m[0].flips) else Lookup(m[1..], q)
  }

  /** Entry k is the one a lookup of its key finds, when keys are distinct. */
  lemma {:induction false} LookupEntry(m: seq<Entry>, k: nat)
    requires k < |m| && NoDup(Keys(m))
    ensures Lookup(m, m[k].pos) == Some(m[k].flips)
  {
    if k > 0 {
      assert Keys(m)[0] != Keys(m)[k];
      assert Keys(m[1..]) == Keys(m)[1..];
      LookupEntry(m[1..], k - 1);
    }
  }

  /** A looked-up key is one of the entries. */
  lemma {:induction false} LookupSome(m: seq<Entry>, q: Pos)
    requires Lookup(m, q).Some?
    ensures exists k :: 0 <= k < |m| && m[k].pos == q && m[k].flips == Lookup(m, q).value
  {
    if m[0].pos != q {
      LookupSome(m[1..], q);
      var k :| 0 <= k < |m| - 1 && m[1..][k].pos == q && m[1..][k].flips == Lookup(m, q).value;
      assert m[k + 1] == m[1..][k];
    }
  }

  // ---------------------------------------------------------------------------
  // Counting and painting
  // ---------------------------------------------------------------------------

  /** The number of cells of s that hold v. */
  function Count(s: seq<Cell>, v: int): nat {
    if s == [] then 0 else Count(s[..|s| - 1], v) + (if s[|s| - 1] == v then 1 else 0)
  }

  /** Cells that hold a piece of either colour. */
  function Occupied(b: Board): nat {
    Count(b, BLACK) + Count(b, WHITE)
  }

  /** Sets each on-board cell of cells to p, one after the other. */
  function PaintAll(b: Board, cells: seq<Pos>, p: Player): Board {
    if cells == [] then b
    else
      var q := cells[|cells| - 1];
      var rest := PaintAll(b, cells[..|cells| - 1], p);
      if OnBoard(q.r, q.c) then rest[Idx(q.r, q.c) := p] else rest
  }

  /** Places p's piece on q and flips the given cells. */
  function PlaceAndFlip(b: Board, q: Pos, flips: seq<Pos>, p: Player): Board {
    PaintAll(if OnBoard(q.r, q.c) then b[Idx(q.r, q.c) := p] else b, flips, p)
  }

  /** The standard start: white on (3,3) and (4,4), black on (3,4) and (4,3). */
  function InitialBoard(): Board {
    seq(64, i => if i == 27 || i == 36 then WHITE else if i == 28 || i == 35 then BLACK else EMPTY)
  }

  /** Winner of a finished game: the colour with strictly more pieces, or EMPTY on a tie. */
  function WinnerOf(b: Board): int {
    var black, white := Count(b, BLACK), Count(b, WHITE);
    if black > white then BLACK else if white > black then WHITE else EMPTY
  }

  // ---------------------------------------------------------------------------
  // Turn hand-over, shared by the two Python game classes
  // ---------------------------------------------------------------------------

  datatype Turn = Turn(player: Player, moves: seq<Entry>, over: bool)

  /** The opponent moves when it can; otherwise the turn passes back to the
      mover; when neither side can move the game is over. */
  function NextTurn(b: Board, mover: Player): Turn {
    var oppMoves := ValidMoves(b, Opponent(mover));
    if oppMoves != [] then Turn(Opponent(mover), oppMoves, false)
    else
      var ownMoves := ValidMoves(b, mover);
      if ownMoves != [] then Turn(mover, ownMoves, false) else Turn(mover, [], true)
  }
}
