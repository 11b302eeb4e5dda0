/** What the shared rules guarantee: the shape of a flip set, the exact
    contents and order of the legal-move dictionary, and what applying a
    move does to the board and to the piece counts. */
module BoardLemmas {
  import opened Board

  // ---------------------------------------------------------------------------
  // Flip sets
  // ---------------------------------------------------------------------------

  lemma OnRayStep(r: int, c: int, dr: int, dc: int, q: Pos)
    requires IsDir(dr, dc) && OnRay(r, c, dr, dc, q)
    ensures OnRay(r, c, dr, dc, Pos(q.r + dr, q.c + dc))
    ensures OnRay(q.r, q.c, dr, dc, Pos(q.r + dr, q.c + dc))
    ensures !OnRay(q.r, q.c, dr, dc, q)
  {
  }

  /** The ray from (x, y) starts one step away and never holds (x, y) itself. */
  lemma RayStart(x: int, y: int, dr: int, dc: int)
    requires IsDir(dr, dc)
    ensures OnRay(x, y, dr, dc, Pos(x + dr, y + dc)) && !OnRay(x, y, dr, dc, Pos(x, y))
  {
  }

  /** A bracketed run holds only on-board opponent cells on the ray from (r, c). */
  lemma {:induction false} BracketCells(b: Board, x: int, y: int, dr: int, dc: int, p: Player, r: int, c: int)
    requires IsDir(dr, dc) && OnRay(r, c, dr, dc, Pos(x, y))
    requires Bracket(b, x, y, dr, dc, p).Some?
    ensures forall q :: q in Bracket(b, x, y, dr, dc, p).value ==>
      OnBoard(q.r, q.c) && At(b, q.r, q.c) == Opponent(p) && OnRay(r, c, dr, dc, q)
    decreases Reach(x, y, dr, dc)
  {
    if At(b, x, y) == Opponent(p) {
      OnRayStep(r, c, dr, dc, Pos(x, y));
      BracketCells(b, x + dr, y + dc, dr, dc, p, r, c);
    }
  }

  /** A bracketed run never holds a cell twice. */
  lemma {:induction false} BracketNoDup(b: Board, x: int, y: int, dr: int, dc: int, p: Player)
    requires IsDir(dr, dc)
    requires Bracket(b, x, y, dr, dc, p).Some?
    ensures NoDup(Bracket(b, x, y, dr, dc, p).value)
    decreases Reach(x, y, dr, dc)
  {
    if At(b, x, y) == Opponent(p) {
      var rest := Bracket(b, x + dr, y + dc, dr, dc, p).value;
      BracketNoDup(b, x + dr, y + dc, dr, dc, p);
      RayStart(x, y, dr, dc);
      BracketCells(b, x + dr, y + dc, dr, dc, p, x, y);
      NoDupConcat([Pos(x, y)], rest);
    }
  }

  /** A bracketed run starts where the walk starts and advances one step at
      a time; an empty run means the walk starts on a piece of p. */
  lemma {:induction false} BracketSteps(b: Board, x: int, y: int, dr: int, dc: int, p: Player)
    requires IsDir(dr, dc)
    requires Bracket(b, x, y, dr, dc, p).Some?
    ensures var run := Bracket(b, x, y, dr, dc, p).value;
      && (run != [] ==> run[0] == Pos(x, y))
      && (forall i :: 0 <= i < |run| - 1 ==> run[i + 1] == Pos(run[i].r + dr, run[i].c + dc))
      && (run == [] ==> OnBoard(x, y) && At(b, x, y) == p)
    decreases Reach(x, y, dr, dc)
  {
    if At(b, x, y) == Opponent(p) {
      var rest := Bracket(b, x + dr, y + dc, dr, dc, p).value;
      BracketSteps(b, x + dr, y + dc, dr, dc, p);
      var run := [Pos(x, y)] + rest;
      forall i | 0 <= i < |run| - 1 ensures run[i + 1] == Pos(run[i].r + dr, run[i].c + dc) {
        if i > 0 {
          assert run[i] == rest[i - 1] && run[i + 1] == rest[i];
        }
      }
    }
  }

  /** The cell just past a non-empty bracketed run holds a piece of p. */
  lemma {:induction false} BracketEnd(b: Board, x: int, y: int, dr: int, dc: int, p: Player)
    requires IsDir(dr, dc)
    requires Bracket(b, x, y, dr, dc, p).Some? && Bracket(b, x, y, dr, dc, p).value != []
    ensures var run := Bracket(b, x, y, dr, dc, p).value;
      OnBoard(run[|run| - 1].r + dr, run[|run| - 1].c + dc) &&
      At(b, run[|run| - 1].r + dr, run[|run| - 1].c + dc) == p
    decreases Reach(x, y, dr, dc)
  {
    var run := Bracket(b, x, y, dr, dc, p).value;
    assert OnBoard(x, y) && At(b, x, y) == Opponent(p);
    var rest := Bracket(b, x + dr, y + dc, dr, dc, p).value;
    assert run == [Pos(x, y)] + rest;
    if rest != [] {
      BracketEnd(b, x + dr, y + dc, dr, dc, p);
      assert run[|run| - 1] == rest[|rest| - 1];
    } else {
      assert run[|run| - 1] == Pos(x, y);
      BracketSteps(b, x + dr, y + dc, dr, dc, p);
    }
  }

  /** Along direction k, the flips are opponent cells on the ray from (r, c). */
  lemma DirFlipsFacts(b: Board, r: int, c: int, d: (int, int), p: Player)
    requires IsDir(d.0, d.1)
    ensures var f := DirFlips(b, r, c, d, p);
      NoDup(f) && forall q :: q in f ==> OnBoard(q.r, q.c) && At(b, q.r, q.c) == Opponent(p) && OnRay(r, c, d.0, d.1, q)
  {
    if Bracket(b, r + d.0, c + d.1, d.0, d.1, p).Some? {
      BracketCells(b, r + d.0, c + d.1, d.0, d.1, p, r, c);
      BracketNoDup(b, r + d.0, c + d.1, d.0, d.1, p);
    }
  }

  /** f is a run that starts next to (r, c), advances one step at a time
      along d, holds only opponent cells, and is closed by a piece of p. */
  predicate BracketedRun(b: Board, r: int, c: int, d: (int, int), p: Player, f: seq<Pos>) {
    && f != []
    && f[0] == Pos(r + d.0, c + d.1)
    && (forall i :: 0 <= i < |f| - 1 ==> f[i + 1] == Pos(f[i].r + d.0, f[i].c + d.1))
    && (forall q :: q in f ==> OnBoard(q.r, q.c) && At(b, q.r, q.c) == Opponent(p))
    && OnBoard(f[|f| - 1].r + d.0, f[|f| - 1].c + d.1) && At(b, f[|f| - 1].r + d.0, f[|f| - 1].c + d.1) == p
  }

  /** Every flipped cell lies between (r, c) and a piece of the mover. */
  lemma DirFlipsBracketed(b: Board, r: int, c: int, d: (int, int), p: Player)
    requires IsDir(d.0, d.1) && DirFlips(b, r, c, d, p) != []
    ensures BracketedRun(b, r, c, d, p, DirFlips(b, r, c, d, p))
  {
    DirFlipsShape(b, r, c, d, p);
    DirFlipsEnd(b, r, c, d, p);
    DirFlipsFacts(b, r, c, d, p);
  }

  /** f is a run of opponent cells that starts at (x, y), advances along
      (dr, dc) and is closed by a piece of p. */
  predicate ClosedRun(b: Board, x: int, y: int, dr: int, dc: int, p: Player, f: seq<Pos>) {
    && f != [] && f[0] == Pos(x, y)
    && (forall i :: 0 <= i < |f| - 1 ==> f[i + 1] == Pos(f[i].r + dr, f[i].c + dc))
    && (forall i :: 0 <= i < |f| ==> OnBoard(f[i].r, f[i].c) && At(b, f[i].r, f[i].c) == Opponent(p))
    && OnBoard(f[|f| - 1].r + dr, f[|f| - 1].c + dc) && At(b, f[|f| - 1].r + dr, f[|f| - 1].c + dc) == p
  }

  /** A closed run longer than one cell continues as a closed run one step on. */
  lemma ClosedRunTail(b: Board, x: int, y: int, dr: int, dc: int, p: Player, f: seq<Pos>)
    requires ClosedRun(b, x, y, dr, dc, p, f) && |f| > 1
    ensures OnBoard(x, y) && At(b, x, y) == Opponent(p)
    ensures ClosedRun(b, x + dr, y + dc, dr, dc, p, f[1..])
  {
    var rest := f[1..];
    assert rest[0] == f[1] == Pos(x + dr, y + dc);
    assert rest[|rest| - 1] == f[|f| - 1];
    forall i | 0 <= i < |rest| - 1 ensures rest[i + 1] == Pos(rest[i].r + dr, rest[i].c + dc) {
      assert rest[i] == f[i + 1] && rest[i + 1] == f[i + 2];
    }
    forall i | 0 <= i < |rest| ensures OnBoard(rest[i].r, rest[i].c) && At(b, rest[i].r, rest[i].c) == Opponent(p) {
      assert rest[i] == f[i + 1];
    }
  }

  /** Conversely, a closed run starting at (x, y) is what Bracket finds there. */
  lemma {:induction false} BracketFinds(b: Board, x: int, y: int, dr: int, dc: int, p: Player, f: seq<Pos>)
    requires IsDir(dr, dc) && ClosedRun(b, x, y, dr, dc, p, f)
    ensures Bracket(b, x, y, dr, dc, p) == Some(f)
    decreases |f|
  {
    if |f| == 1 {
      assert Bracket(b, x + dr, y + dc, dr, dc, p) == Some([]);
      assert [Pos(x, y)] + [] == f;
    } else {
      ClosedRunTail(b, x, y, dr, dc, p, f);
      BracketFinds(b, x + dr, y + dc, dr, dc, p, f[1..]);
      assert [Pos(x, y)] + f[1..] == f;
    }
  }

  /** Every bracketed run along d is exactly what a move at (r, c) flips
      along d. */
  lemma DirFlipsComplete(b: Board, r: int, c: int, d: (int, int), p: Player, f: seq<Pos>)
    requires IsDir(d.0, d.1) && BracketedRun(b, r, c, d, p, f)
    ensures DirFlips(b, r, c, d, p) == f
  {
    forall i | 0 <= i < |f| ensures OnBoard(f[i].r, f[i].c) && At(b, f[i].r, f[i].c) == Opponent(p) {
      assert f[i] in f;
    }
    BracketFinds(b, r + d.0, c + d.1, d.0, d.1, p, f);
  }

  /** The flips along the first k directions include those of each of them. */
  lemma {:induction false} FlipsUpToIncludes(b: Board, r: int, c: int, p: Player, k: nat, j: nat)
    requires j < k <= 8
    ensures forall q :: q in DirFlips(b, r, c, Dir(j), p) ==> q in FlipsUpTo(b, r, c, p, k)
  {
    if j < k - 1 {
      FlipsUpToIncludes(b, r, c, p, k - 1, j);
    }
  }

  /** An empty cell from which some direction brackets a run of opponent
      pieces is a legal move, and its stored flips include that whole run. */
  lemma BracketedMoveIsLegal(b: Board, p: Player, r: int, c: int, k: nat, f: seq<Pos>)
    requires OnBoard(r, c) && At(b, r, c) == EMPTY && k < 8
    requires BracketedRun(b, r, c, Dir(k), p, f)
    ensures Pos(r, c) in Keys(ValidMoves(b, p))
    ensures Lookup(ValidMoves(b, p), Pos(r, c)).Some?
    ensures forall q :: q in f ==> q in Lookup(ValidMoves(b, p), Pos(r, c)).value
  {
    DirFlipsComplete(b, r, c, Dir(k), p, f);
    FlipsUpToIncludes(b, r, c, p, 8, k);
    assert f[0] in FlipsOf(b, r, c, p);
    ValidMoveIff(b, p, r, c);
  }

  lemma DirFlipsShape(b: Board, r: int, c: int, d: (int, int), p: Player)
    requires IsDir(d.0, d.1) && DirFlips(b, r, c, d, p) != []
    ensures var f := DirFlips(b, r, c, d, p);
      f[0] == Pos(r + d.0, c + d.1) &&
      forall i :: 0 <= i < |f| - 1 ==> f[i + 1] == Pos(f[i].r + d.0, f[i].c + d.1)
  {
    var w := Bracket(b, r + d.0, c + d.1, d.0, d.1, p);
    assert w.Some? && DirFlips(b, r, c, d, p) == w.value;
    BracketSteps(b, r + d.0, c + d.1, d.0, d.1, p);
  }

  lemma DirFlipsEnd(b: Board, r: int, c: int, d: (int, int), p: Player)
    requires IsDir(d.0, d.1) && DirFlips(b, r, c, d, p) != []
    ensures var f := DirFlips(b, r, c, d, p);
      OnBoard(f[|f| - 1].r + d.0, f[|f| - 1].c + d.1) && At(b, f[|f| - 1].r + d.0, f[|f| - 1].c + d.1) == p
  {
    var w := Bracket(b, r + d.0, c + d.1, d.0, d.1, p);
    assert w.Some? && DirFlips(b, r, c, d, p) == w.value;
    BracketEnd(b, r + d.0, c + d.1, d.0, d.1, p);
  }

  lemma NoDupConcat<T>(a: seq<T>, b: seq<T>)
    requires NoDup(a) && NoDup(b)
    requires forall x :: x in a ==> x !in b
    ensures NoDup(a + b)
  {
    forall i, j | 0 <= i < j < |a + b| ensures (a + b)[i] != (a + b)[j] {
      if j < |a| {
      } else if i >= |a| {
        assert (a + b)[i] == b[i - |a|] && (a + b)[j] == b[j - |a|];
      } else {
        assert (a + b)[i] in a && (a + b)[j] == b[j - |a|];
      }
    }
  }

  function SignPair(r: int, c: int, q: Pos): (int, int) {
    (Sign(q.r - r), Sign(q.c - c))
  }

  /** The cells flipped along d all lie in direction d from (r, c). */
  lemma DirFlipsSigns(b: Board, r: int, c: int, d: (int, int), p: Player)
    requires IsDir(d.0, d.1)
    ensures forall q :: q in DirFlips(b, r, c, d, p) ==> SignPair(r, c, q) == d && q != Pos(r, c)
  {
    DirFlipsFacts(b, r, c, d, p);
  }

  /** The scan order visits the directions in increasing rank. */
  lemma DirRankIncreases(k: nat)
    requires 0 < k < 8
    ensures Rank(Dir(k - 1)) < Rank(Dir(k))
  {
  }

  lemma {:induction false} FlipsUpToFacts(b: Board, r: int, c: int, p: Player, k: nat)
    requires k <= 8
    ensures var f := FlipsUpTo(b, r, c, p, k);
      && NoDup(f)
      && (forall q :: q in f ==> OnBoard(q.r, q.c) && At(b, q.r, q.c) == Opponent(p) && q != Pos(r, c))
      && (k > 0 ==> forall q :: q in f ==> Rank(SignPair(r, c, q)) <= Rank(Dir(k - 1)))
  {
    if k > 0 {
      FlipsUpToFacts(b, r, c, p, k - 1);
      DirFlipsFacts(b, r, c, Dir(k - 1), p);
      DirFlipsSigns(b, r, c, Dir(k - 1), p);
      if k > 1 {
        DirRankIncreases(k - 1);
      }
      var old_ := FlipsUpTo(b, r, c, p, k - 1);
      var new_ := DirFlips(b, r, c, Dir(k - 1), p);
      NoDupConcat(old_, new_);
    }
  }

  /** The flip set holds no cell twice, never the target cell, and only
      on-board cells of the opponent. */
  lemma FlipsFacts(b: Board, r: int, c: int, p: Player)
    ensures var f := FlipsOf(b, r, c, p);
      && NoDup(f)
      && forall q :: q in f ==> OnBoard(q.r, q.c) && At(b, q.r, q.c) == Opponent(p) && q != Pos(r, c)
  {
    FlipsUpToFacts(b, r, c, p, 8);
  }

  /** When no neighbour of (r, c) holds an opponent piece, nothing is flipped. */
  lemma {:induction false} NoOpponentNeighbourNoFlips(b: Board, r: int, c: int, p: Player, k: nat)
    requires k <= 8
    requires forall j :: 0 <= j < k ==>
      var d := Dir(j); !OnBoard(r + d.0, c + d.1) || At(b, r + d.0, c + d.1) != Opponent(p)
    ensures FlipsUpTo(b, r, c, p, k) == []
  {
    if k > 0 {
      NoOpponentNeighbourNoFlips(b, r, c, p, k - 1);
      var d := Dir(k - 1);
      assert Bracket(b, r + d.0, c + d.1, d.0, d.1, p) == None ||
             Bracket(b, r + d.0, c + d.1, d.0, d.1, p) == Some([]);
    }
  }

  // ---------------------------------------------------------------------------
  // The legal-move dictionary
  // ---------------------------------------------------------------------------

  /** Entry e is a legal move of p on b, stored with its flip set. */
  predicate EntryOk(b: Board, p: Player, e: Entry) {
    OnBoard(e.pos.r, e.pos.c) && At(b, e.pos.r, e.pos.c) == EMPTY &&
    e.flips == FlipsOf(b, e.pos.r, e.pos.c, p) && e.flips != []
  }

  /** Row-major position of a cell. */
  function Order(q: Pos): int {
    8 * q.r + q.c
  }

  /** Keys strictly increase in row-major order. */
  predicate Increasing(m: seq<Entry>) {
    forall j, k :: 0 <= j < k < |m| ==> Order(m[j].pos) < Order(m[k].pos)
  }

  lemma MovesBelowFacts(b: Board, p: Player, n: nat)
    requires n <= 64
    ensures var m := MovesBelow(b, p, n);
      && (forall e :: e in m ==> EntryOk(b, p, e) && Order(e.pos) < n)
      && Increasing(m)
      && (forall i :: 0 <= i < n && b[i] == EMPTY && FlipsOf(b, PosOf(i).r, PosOf(i).c, p) != [] ==> PosOf(i) in Keys(m))
  {
    MovesBelowEntries(b, p, n);
    MovesBelowIncreasing(b, p, n);
    MovesBelowComplete(b, p, n);
  }

  lemma EntryAtFacts(b: Board, p: Player, i: nat)
    requires i < 64
    ensures var e := EntryAt(b, p, i);
      |e| <= 1 && (e != [] ==> EntryOk(b, p, e[0]) && Order(e[0].pos) == i)
  {
  }

  lemma {:induction false} MovesBelowEntries(b: Board, p: Player, n: nat)
    requires n <= 64
    ensures forall e :: e in MovesBelow(b, p, n) ==> EntryOk(b, p, e) && Order(e.pos) < n
  {
    if n > 0 {
      MovesBelowEntries(b, p, n - 1);
      EntryAtFacts(b, p, n - 1);
      assert MovesBelow(b, p, n) == MovesBelow(b, p, n - 1) + EntryAt(b, p, n - 1);
    }
  }

  lemma IncreasingSnoc(m: seq<Entry>, x: Entry)
    requires Increasing(m)
    requires forall e :: e in m ==> Order(e.pos) < Order(x.pos)
    ensures Increasing(m + [x])
  {
    var m' := m + [x];
    forall j, k | 0 <= j < k < |m'| ensures Order(m'[j].pos) < Order(m'[k].pos) {
      assert m'[j] == m[j];
      if k < |m| { assert m'[k] == m[k]; } else { assert m'[k] == x; }
    }
  }

  lemma {:induction false} MovesBelowIncreasing(b: Board, p: Player, n: nat)
    requires n <= 64
    ensures Increasing(MovesBelow(b, p, n))
  {
    if n > 0 {
      MovesBelowIncreasing(b, p, n - 1);
      MovesBelowEntries(b, p, n - 1);
      EntryAtFacts(b, p, n - 1);
      var m0 := MovesBelow(b, p, n - 1);
      var e := EntryAt(b, p, n - 1);
      assert MovesBelow(b, p, n) == m0 + e;
      if e != [] {
        assert e == [e[0]];
        IncreasingSnoc(m0, e[0]);
      } else {
        assert m0 + e == m0;
      }
    }
  }

  lemma {:induction false} MovesBelowComplete(b: Board, p: Player, n: nat)
    requires n <= 64
    ensures var m := MovesBelow(b, p, n);
      forall i :: 0 <= i < n && b[i] == EMPTY && FlipsOf(b, PosOf(i).r, PosOf(i).c, p) != [] ==> PosOf(i) in Keys(m)
  {
    if n > 0 {
      MovesBelowComplete(b, p, n - 1);
      var m0 := MovesBelow(b, p, n - 1);
      var m := MovesBelow(b, p, n);
      assert m == m0 + EntryAt(b, p, n - 1);
      forall i | 0 <= i < n && b[i] == EMPTY && FlipsOf(b, PosOf(i).r, PosOf(i).c, p) != []
        ensures PosOf(i) in Keys(m)
      {
        if i < n - 1 {
          var k :| 0 <= k < |m0| && Keys(m0)[k] == PosOf(i);
          assert Keys(m)[k] == PosOf(i);
        } else {
          assert Keys(m)[|m| - 1] == PosOf(i);
        }
      }
    }
  }

  /** Every entry is a legal move stored with its flip set, and the keys
      strictly increase in row-major order, hence are distinct. */
  lemma ValidMovesOrdered(b: Board, p: Player)
    ensures var m := ValidMoves(b, p);
      && (forall e :: e in m ==> EntryOk(b, p, e))
      && Increasing(m)
      && NoDup(Keys(m))
  {
    var m := ValidMoves(b, p);
    MovesBelowEntries(b, p, 64);
    MovesBelowIncreasing(b, p, 64);
    forall i, j | 0 <= i < j < |Keys(m)| ensures Keys(m)[i] != Keys(m)[j] {
      assert Order(m[i].pos) < Order(m[j].pos);
    }
  }

  lemma ValidMoveOnly(b: Board, p: Player, r: int, c: int)
    requires Pos(r, c) in Keys(ValidMoves(b, p))
    ensures OnBoard(r, c) && At(b, r, c) == EMPTY && FlipsOf(b, r, c, p) != []
    ensures Lookup(ValidMoves(b, p), Pos(r, c)) == Some(FlipsOf(b, r, c, p))
  {
    var m := ValidMoves(b, p);
    ValidMovesOrdered(b, p);
    var k :| 0 <= k < |m| && Keys(m)[k] == Pos(r, c);
    assert m[k] in m;
    LookupEntry(m, k);
  }

  lemma ValidMoveIf(b: Board, p: Player, r: int, c: int)
    requires OnBoard(r, c) && At(b, r, c) == EMPTY && FlipsOf(b, r, c, p) != []
    ensures Pos(r, c) in Keys(ValidMoves(b, p))
  {
    MovesBelowComplete(b, p, 64);
    PosOfIdx(r, c);
    assert PosOf(Idx(r, c)) in Keys(ValidMoves(b, p));
  }

  /** (r, c) is a key of the legal-move dictionary exactly when it is an
      empty cell of the board whose flip set is non-empty, and then the
      dictionary maps it to that flip set. */
  lemma ValidMoveIff(b: Board, p: Player, r: int, c: int)
    ensures Pos(r, c) in Keys(ValidMoves(b, p)) <==>
      OnBoard(r, c) && At(b, r, c) == EMPTY && FlipsOf(b, r, c, p) != []
    ensures Pos(r, c) in Keys(ValidMoves(b, p)) ==>
      Lookup(ValidMoves(b, p), Pos(r, c)) == Some(FlipsOf(b, r, c, p))
  {
    if Pos(r, c) in Keys(ValidMoves(b, p)) {
      ValidMoveOnly(b, p, r, c);
    } else if OnBoard(r, c) && At(b, r, c) == EMPTY && FlipsOf(b, r, c, p) != [] {
      ValidMoveIf(b, p, r, c);
    }
  }

  /** Every entry is found by looking up its own key. */
  lemma ValidMovesLookup(b: Board, p: Player, k: nat)
    requires k < |ValidMoves(b, p)|
    ensures var e := ValidMoves(b, p)[k];
      Lookup(ValidMoves(b, p), e.pos) == Some(e.flips) && EntryOk(b, p, e)
  {
    ValidMovesOrdered(b, p);
    assert ValidMoves(b, p)[k] in ValidMoves(b, p);
    LookupEntry(ValidMoves(b, p), k);
  }

  // ---------------------------------------------------------------------------
  // Counting and applying a move
  // ---------------------------------------------------------------------------

  lemma {:induction false} CountUpdate(s: seq<Cell>, i: nat, v: Cell, w: int)
    requires i < |s|
    ensures Count(s[i := v], w) == Count(s, w) - (if s[i] == w then 1 else 0) + (if v == w then 1 else 0)
  {
    var n := |s|;
    if i < n - 1 {
      assert s[i := v][..n - 1] == s[..n - 1][i := v];
      CountUpdate(s[..n - 1], i, v, w);
    } else {
      assert s[i := v][..n - 1] == s[..n - 1];
    }
  }

  /** Every cell is black, white or empty. */
  lemma {:induction false} CountTotal(s: seq<Cell>)
    ensures Count(s, BLACK) + Count(s, WHITE) + Count(s, EMPTY) == |s|
  {
    if s != [] {
      CountTotal(s[..|s| - 1]);
    }
  }

  lemma {:induction false} PaintAllAt(b: Board, cells: seq<Pos>, p: Player, i: nat)
    requires i < 64
    ensures PaintAll(b, cells, p)[i] == if PosOf(i) in cells then p as Cell else b[i]
  {
    if cells != [] {
      var n := |cells|;
      var q := cells[n - 1];
      PaintAllAt(b, cells[..n - 1], p, i);
      assert cells == cells[..n - 1] + [q];
      if OnBoard(q.r, q.c) {
        PosOfIdx(q.r, q.c);
      }
    }
  }

  /** Painting distinct opponent cells moves exactly |cells| pieces from the
      opponent's count to p's, and leaves the empty cells alone. */
  lemma {:induction false} PaintCounts(b: Board, cells: seq<Pos>, p: Player)
    requires NoDup(cells)
    requires forall q :: q in cells ==> OnBoard(q.r, q.c) && At(b, q.r, q.c) == Opponent(p)
    ensures var b' := PaintAll(b, cells, p);
      && Count(b', p) == Count(b, p) + |cells|
      && Count(b', Opponent(p)) == Count(b, Opponent(p)) - |cells|
      && Count(b', EMPTY) == Count(b, EMPTY)
  {
    if cells != [] {
      var n := |cells|;
      var q := cells[n - 1];
      var pre := cells[..n - 1];
      assert forall x :: x in pre ==> x in cells;
      assert NoDup(pre);
      PaintCounts(b, pre, p);
      var rest := PaintAll(b, pre, p);
      PaintAllAt(b, pre, p, Idx(q.r, q.c));
      PosOfIdx(q.r, q.c);
      assert q !in pre;
      CountUpdate(rest, Idx(q.r, q.c), p, p);
      CountUpdate(rest, Idx(q.r, q.c), p, Opponent(p));
      CountUpdate(rest, Idx(q.r, q.c), p, EMPTY);
    }
  }

  /** A legal move puts p on the target and on every flipped cell, leaves every
      other cell as it was, raises p's count by 1 + |flips|, lowers the
      opponent's by |flips| and fills exactly one empty cell. */
  lemma MoveEffect(b: Board, p: Player, q: Pos)
    requires q in Keys(ValidMoves(b, p))
    ensures OnBoard(q.r, q.c)
    ensures var f := FlipsOf(b, q.r, q.c, p); var b' := PlaceAndFlip(b, q, f, p);
      && b'[IndexOf(q)] == p
      && (forall x :: x in f ==> OnBoard(x.r, x.c) && b'[IndexOf(x)] == p)
      && (forall i :: 0 <= i < 64 && i != IndexOf(q) && PosOf(i) !in f ==> b'[i] == b[i])
      && Count(b', p) == Count(b, p) + 1 + |f|
      && Count(b', Opponent(p)) == Count(b, Opponent(p)) - |f|
      && Count(b', EMPTY) == Count(b, EMPTY) - 1
      && Occupied(b') == Occupied(b) + 1
  {
    ValidMoveIff(b, p, q.r, q.c);
    FlipsFacts(b, q.r, q.c, p);
    var f := FlipsOf(b, q.r, q.c, p);
    var i0 := Idx(q.r, q.c);
    var b1 := b[i0 := p];
    CountUpdate(b, i0, p, p);
    CountUpdate(b, i0, p, Opponent(p));
    CountUpdate(b, i0, p, EMPTY);
    forall x | x in f ensures At(b1, x.r, x.c) == Opponent(p) {
      assert Idx(x.r, x.c) != i0;
    }
    PaintCounts(b1, f, p);
    var b' := PlaceAndFlip(b, q, f, p);
    forall i | 0 <= i < 64 ensures b'[i] == if PosOf(i) in f then p as Cell else b1[i] {
      PaintAllAt(b1, f, p, i);
    }
    forall x | x in f ensures b'[IndexOf(x)] == p {
      PosOfIdx(x.r, x.c);
    }
    PosOfIdx(q.r, q.c);
    assert q !in f;
  }

  // ---------------------------------------------------------------------------
  // The opening position
  // ---------------------------------------------------------------------------

  /** The opening position holds two pieces of each colour. */
  lemma InitialCounts(b: Board)
    requires b == InitialBoard()
    ensures Count(b, BLACK) == 2 && Count(b, WHITE) == 2
  {
    var z1, m1, z2, m2, z3 := b[..27], b[27..29], b[29..35], b[35..37], b[37..];
    assert b == z1 + m1 + z2 + m2 + z3;
    assert m1 == [WHITE, BLACK] && m2 == [BLACK, WHITE];
    InitialCount(z1, m1, z2, m2, z3, BLACK);
    InitialCount(z1, m1, z2, m2, z3, WHITE);
  }

  lemma InitialCount(z1: seq<Cell>, m1: seq<Cell>, z2: seq<Cell>, m2: seq<Cell>, z3: seq<Cell>, v: int)
    requires v == BLACK || v == WHITE
    requires m1 == [WHITE, BLACK] && m2 == [BLACK, WHITE]
    requires forall i :: 0 <= i < |z1| ==> z1[i] == EMPTY
    requires forall i :: 0 <= i < |z2| ==> z2[i] == EMPTY
    requires forall i :: 0 <= i < |z3| ==> z3[i] == EMPTY
    ensures Count(z1 + m1 + z2 + m2 + z3, v) == 2
  {
    CountConcat(z1 + m1 + z2 + m2, z3, v);
    CountConcat(z1 + m1 + z2, m2, v);
    CountConcat(z1 + m1, z2, v);
    CountConcat(z1, m1, v);
    CountNone(z1, v);
    CountNone(z2, v);
    CountNone(z3, v);
    assert m1[..1] == [WHITE] && m2[..1] == [BLACK];
    assert [WHITE][..0] == [] && [BLACK][..0] == [];
    assert Count([WHITE], v) + Count([BLACK], v) == 1;
  }

  lemma {:induction false} CountConcat(s: seq<Cell>, t: seq<Cell>, v: int)
    ensures Count(s + t, v) == Count(s, v) + Count(t, v)
  {
    if t != [] {
      assert (s + t)[..|s + t| - 1] == s + t[..|t| - 1];
      CountConcat(s, t[..|t| - 1], v);
    } else {
      assert s + t == s;
    }
  }

  lemma {:induction false} CountNone(s: seq<Cell>, v: int)
    requires forall i :: 0 <= i < |s| ==> s[i] != v
    ensures Count(s, v) == 0
  {
    if s != [] {
      CountNone(s[..|s| - 1], v);
    }
  }
}
