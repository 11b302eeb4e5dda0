/** Black's legal moves in the opening position, computed cell by cell: the
    dictionary that `get_valid_moves` builds there has exactly four keys. */
module Opening {
  import opened Board
  import opened BoardLemmas

  /** Black's opening moves, in row-major order. */
  const OPENING_MOVES: seq<Pos> := [Pos(2, 3), Pos(3, 2), Pos(4, 5), Pos(5, 4)]

  /** The opening moves among the first n cells in row-major order. */
  function OpeningBelow(n: nat): seq<Pos> {
    if n <= 19 then []
    else if n <= 26 then OPENING_MOVES[..1]
    else if n <= 37 then OPENING_MOVES[..2]
    else if n <= 44 then OPENING_MOVES[..3]
    else OPENING_MOVES
  }

  lemma {:induction false} KeysConcat(m1: seq<Entry>, m2: seq<Entry>)
    ensures Keys(m1 + m2) == Keys(m1) + Keys(m2)
  {
    var ks := Keys(m1 + m2);
    assert |ks| == |Keys(m1) + Keys(m2)|;
    forall k | 0 <= k < |ks| ensures ks[k] == (Keys(m1) + Keys(m2))[k] {
      if k < |m1| {
        assert (m1 + m2)[k] == m1[k];
      } else {
        assert (m1 + m2)[k] == m2[k - |m1|];
      }
    }
  }

  /** A direction whose first cell is off the board or not the opponent's
      flips nothing. */
  lemma NoOpponentNextNoDirFlips(b: Board, r: int, c: int, d: (int, int), p: Player)
    requires IsDir(d.0, d.1)
    requires !OnBoard(r + d.0, c + d.1) || At(b, r + d.0, c + d.1) != Opponent(p)
    ensures DirFlips(b, r, c, d, p) == []
  {
  }

  /** When no direction flips anything, the move flips nothing. */
  lemma {:induction false} NoDirFlipsNoFlips(b: Board, r: int, c: int, p: Player, k: nat)
    requires k <= 8 && forall j :: 0 <= j < k ==> DirFlips(b, r, c, Dir(j), p) == []
    ensures FlipsUpTo(b, r, c, p, k) == []
  {
    if k > 0 {
      NoDirFlipsNoFlips(b, r, c, p, k - 1);
    }
  }

  /** A cell with one white neighbour, whose line of white pieces in that
      direction k ends on an empty cell, gives black nothing to flip. */
  lemma OneOpenLine(b: Board, r: int, c: int, k: nat)
    requires b == InitialBoard() && OnBoard(r, c) && k < 8
    requires DirFlips(b, r, c, Dir(k), BLACK) == []
    requires forall j :: 0 <= j < 8 && j != k ==>
      var d := Dir(j); !OnBoard(r + d.0, c + d.1) || At(b, r + d.0, c + d.1) != WHITE
    ensures FlipsOf(b, r, c, BLACK) == []
  {
    forall j | 0 <= j < 8 ensures DirFlips(b, r, c, Dir(j), BLACK) == [] {
      if j != k {
        NoOpponentNextNoDirFlips(b, r, c, Dir(j), BLACK);
      }
    }
    NoDirFlipsNoFlips(b, r, c, BLACK, 8);
  }

  /** A legal opening move: the single white piece along direction k is
      closed by a black piece. */
  lemma OpeningMove(b: Board, r: int, c: int, k: nat)
    requires b == InitialBoard() && OnBoard(r, c) && At(b, r, c) == EMPTY && k < 8
    requires var d := Dir(k);
      OnBoard(r + 2 * d.0, c + 2 * d.1) && At(b, r + d.0, c + d.1) == WHITE && At(b, r + 2 * d.0, c + 2 * d.1) == BLACK
    ensures FlipsOf(b, r, c, BLACK) != []
  {
    var d := Dir(k);
    var f := [Pos(r + d.0, c + d.1)];
    assert BracketedRun(b, r, c, d, BLACK, f);
    DirFlipsComplete(b, r, c, d, BLACK, f);
    FlipsUpToIncludes(b, r, c, BLACK, 8, k);
    assert f[0] in FlipsOf(b, r, c, BLACK);
  }

  /** The cells whose neighbour in some direction is one of the two white
      pieces (on 27 and 36). */
  predicate NextToWhite(i: int) {
    i in {18, 19, 20, 26, 27, 28, 34, 35, 36, 29, 37, 43, 44, 45}
  }

  /** A cell away from both white pieces has no white neighbour. */
  lemma AwayFromWhite(b: Board, r: int, c: int)
    requires b == InitialBoard() && OnBoard(r, c) && !NextToWhite(8 * r + c)
    ensures forall j :: 0 <= j < 8 ==>
      var d := Dir(j); !OnBoard(r + d.0, c + d.1) || At(b, r + d.0, c + d.1) != WHITE
  {
    forall j | 0 <= j < 8 ensures var d := Dir(j); !OnBoard(r + d.0, c + d.1) || At(b, r + d.0, c + d.1) != WHITE {
      var d := Dir(j);
      if OnBoard(r + d.0, c + d.1) {
        assert Idx(r + d.0, c + d.1) == 8 * r + c + 8 * d.0 + d.1;
      }
    }
  }

  /** The four opening moves flip something. */
  lemma MoveCellFlips(b: Board, i: nat)
    requires b == InitialBoard() && i in {19, 26, 37, 44}
    ensures b[i] == EMPTY && FlipsOf(b, PosOf(i).r, PosOf(i).c, BLACK) != []
  {
    if i == 19 {
      OpeningMove(b, 2, 3, 6);
    } else if i == 26 {
      OpeningMove(b, 3, 2, 4);
    } else if i == 37 {
      OpeningMove(b, 4, 5, 3);
    } else {
      OpeningMove(b, 5, 4, 1);
    }
  }

  /** The three other empty cells next to the white piece on (3, 3) flip
      nothing: the line of white pieces each starts ends on an empty cell. */
  lemma BlockedNearFirstWhite(b: Board, r: int, c: int)
    requires b == InitialBoard() && (r, c) in {(2, 2), (2, 4), (4, 2)}
    ensures FlipsOf(b, r, c, BLACK) == []
  {
    if (r, c) == (2, 2) {
      assert Bracket(b, 4, 4, 1, 1, BLACK) == None;
      OneOpenLine(b, 2, 2, 7);
    } else if (r, c) == (2, 4) {
      assert Bracket(b, 3, 3, 1, -1, BLACK) == None;
      OneOpenLine(b, 2, 4, 5);
    } else {
      assert Bracket(b, 3, 3, -1, 1, BLACK) == None;
      OneOpenLine(b, 4, 2, 2);
    }
  }

  /** The same for the three cells next to the white piece on (4, 4). */
  lemma BlockedNearSecondWhite(b: Board, r: int, c: int)
    requires b == InitialBoard() && (r, c) in {(3, 5), (5, 3), (5, 5)}
    ensures FlipsOf(b, r, c, BLACK) == []
  {
    if (r, c) == (3, 5) {
      assert Bracket(b, 4, 4, 1, -1, BLACK) == None;
      OneOpenLine(b, 3, 5, 5);
    } else if (r, c) == (5, 3) {
      assert Bracket(b, 4, 4, -1, 1, BLACK) == None;
      OneOpenLine(b, 5, 3, 2);
    } else {
      assert Bracket(b, 3, 3, -1, -1, BLACK) == None;
      OneOpenLine(b, 5, 5, 0);
    }
  }

  /** Every other cell is occupied or flips nothing. */
  lemma QuietCell(b: Board, i: nat)
    requires b == InitialBoard() && i < 64 && !(i in {18, 19, 20, 26, 29, 34, 37, 43, 44, 45})
    ensures b[i] != EMPTY || FlipsOf(b, PosOf(i).r, PosOf(i).c, BLACK) == []
  {
    var q := PosOf(i);
    if !(i in {27, 28, 35, 36}) {
      AwayFromWhite(b, q.r, q.c);
      NoOpponentNeighbourNoFlips(b, q.r, q.c, BLACK, 8);
    }
  }

  /** The keys cell i contributes to black's opening dictionary. */
  lemma OpeningCell(b: Board, i: nat)
    requires b == InitialBoard() && i < 64
    ensures Keys(EntryAt(b, BLACK, i)) == if i in {19, 26, 37, 44} then [PosOf(i)] else []
  {
    if i in {19, 26, 37, 44} {
      MoveCellFlips(b, i);
    } else if i in {18, 20, 34} {
      BlockedNearFirstWhite(b, PosOf(i).r, PosOf(i).c);
    } else if i in {29, 43, 45} {
      BlockedNearSecondWhite(b, PosOf(i).r, PosOf(i).c);
    } else {
      QuietCell(b, i);
    }
  }

  /** One more cell extends the opening moves by that cell exactly when it is
      one of them. */
  lemma OpeningBelowStep(n: nat)
    requires 0 < n <= 64
    ensures OpeningBelow(n) == OpeningBelow(n - 1) + if n - 1 in {19, 26, 37, 44} then [PosOf(n - 1)] else []
  {
    if n - 1 == 19 {
      assert PosOf(19) == Pos(2, 3);
    } else if n - 1 == 26 {
      assert PosOf(26) == Pos(3, 2);
    } else if n - 1 == 37 {
      assert PosOf(37) == Pos(4, 5);
    } else if n - 1 == 44 {
      assert PosOf(44) == Pos(5, 4);
    }
  }

  /** Black's moves among the first n cells of the opening position. */
  lemma {:induction false} OpeningKeysBelow(b: Board, n: nat)
    requires b == InitialBoard() && n <= 64
    ensures Keys(MovesBelow(b, BLACK, n)) == OpeningBelow(n)
  {
    if n > 0 {
      var before, e := MovesBelow(b, BLACK, n - 1), EntryAt(b, BLACK, n - 1);
      OpeningKeysBelow(b, n - 1);
      OpeningCell(b, n - 1);
      KeysConcat(before, e);
      OpeningBelowStep(n);
      assert MovesBelow(b, BLACK, n) == before + e;
    }
  }

  /** In the opening position black has exactly the four moves (2, 3),
      (3, 2), (4, 5) and (5, 4), stored in that order. */
  lemma OpeningMoves(b: Board)
    requires b == InitialBoard()
    ensures Keys(ValidMoves(b, BLACK)) == OPENING_MOVES
    ensures |ValidMoves(b, BLACK)| == 4
  {
    OpeningKeysBelow(b, 64);
  }
}
