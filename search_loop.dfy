/** The bookkeeping shared by the search loops of every copy of the game:
    the log of explored (evaluation, move) pairs and what a max or min loop
    knows while it runs and when it stops, stated against the true child
    values vs. */
module SearchLoop {
  import opened Board
  import opened Search

  /** best is the move of the first child whose value is score, and every
      earlier child is strictly worse for the side to move. */
  predicate FirstBest(vs: seq<int>, moves: seq<Entry>, best: Pos, score: int, maxi: bool) {
    exists k :: 0 <= k < |vs| && k < |moves| && best == moves[k].pos && vs[k] == score
      && forall j :: 0 <= j < k ==> if maxi then vs[j] < score else score < vs[j]
  }

  /** The log of a loop that has explored the first |es| stored moves: entry j
      pairs evaluation j with move j. */
  predicate Logged(evaluated: seq<(int, Pos)>, es: seq<int>, moves: seq<Entry>) {
    |evaluated| == |es| <= |moves| && forall j :: 0 <= j < |es| ==> evaluated[j] == (es[j], moves[j].pos)
  }

  lemma LoggedSnoc(evaluated: seq<(int, Pos)>, es: seq<int>, moves: seq<Entry>, e: int)
    requires Logged(evaluated, es, moves) && |es| < |moves|
    ensures Logged(evaluated + [(e, moves[|es|].pos)], es + [e], moves)
  {
  }

  /** The maximizing loop's log, sorted best first: it holds the same pairs,
      its head is the best evaluation and every logged move is a stored move. */
  lemma DescLog(evaluated: seq<(int, Pos)>, es: seq<int>, moves: seq<Entry>)
    requires Logged(evaluated, es, moves) && es != []
    ensures |SortDesc(evaluated)| == |es| && SortDesc(evaluated)[0].0 == MaxOf(es)
    ensures SortedDesc(SortDesc(evaluated)) && multiset(SortDesc(evaluated)) == multiset(evaluated)
    ensures forall x :: x in SortDesc(evaluated) ==> x.1 in Keys(moves)
  {
    assert Scores(evaluated) == es;
    SortDescHead(evaluated);
    SortDescFacts(evaluated);
    forall x | x in SortDesc(evaluated) ensures x.1 in Keys(moves) {
      assert x in multiset(evaluated);
      var j :| 0 <= j < |evaluated| && evaluated[j] == x;
      assert Keys(moves)[j] == moves[j].pos;
    }
  }

  /** The minimizing loop's log, sorted lowest first, with the same pairs. */
  lemma AscLog(evaluated: seq<(int, Pos)>, es: seq<int>, moves: seq<Entry>)
    requires Logged(evaluated, es, moves) && es != []
    ensures |SortAsc(evaluated)| == |es| && SortAsc(evaluated)[0].0 == MinOf(es)
    ensures SortedAsc(SortAsc(evaluated)) && multiset(SortAsc(evaluated)) == multiset(evaluated)
    ensures forall x :: x in SortAsc(evaluated) ==> x.1 in Keys(moves)
  {
    assert Scores(evaluated) == es;
    SortAscHead(evaluated);
    SortAscFacts(evaluated);
    forall x | x in SortAsc(evaluated) ensures x.1 in Keys(moves) {
      assert x in multiset(evaluated);
      var j :| 0 <= j < |evaluated| && evaluated[j] == x;
      assert Keys(moves)[j] == moves[j].pos;
    }
  }

  /** What a max loop knows after exploring the first |es| stored moves, whose
      true child values are vs: the log pairs each evaluation with its move,
      the search bookkeeping holds, and bestMove is the move of child bi. */
  ghost predicate MaxCore(vs: seq<int>, moves: seq<Entry>, alpha: ExtInt, beta: ExtInt, a: ExtInt,
    es: seq<int>, evaluated: seq<(int, Pos)>, m: ExtInt, bi: nat, bestMove: Pos)
  {
    && |vs| == |moves| && Logged(evaluated, es, moves)
    && MaxBound(vs, es, alpha, beta, a, m, bi) && a == Max(alpha, m)
    && (es != [] ==> bestMove == moves[bi].pos)
  }

  /** The max loop's invariant: its bookkeeping, the alpha it searches the
      next child with, and every logged evaluation tied to its child. */
  ghost predicate MaxInv(vs: seq<int>, moves: seq<Entry>, alpha: ExtInt, beta: ExtInt, a: ExtInt,
    es: seq<int>, evaluated: seq<(int, Pos)>, m: ExtInt, bi: nat, bestMove: Pos)
  {
    && MaxCore(vs, moves, alpha, beta, a, es, evaluated, m, bi, bestMove)
    && a == RaisedAlpha(alpha, es) && MaxEvaluations(vs, es, alpha, beta)
  }

  /** What a max loop guarantees when it stops: at least one move explored,
      m is the best evaluation and bestMove the first move that reached it,
      m obeys the fail-soft guarantee for the maximum of vs, and with the full
      window every move was explored and child bi is the first maximal one. */
  ghost predicate MaxCoreDone(vs: seq<int>, moves: seq<Entry>, alpha: ExtInt, beta: ExtInt,
    es: seq<int>, evaluated: seq<(int, Pos)>, m: ExtInt, bi: nat, bestMove: Pos)
  {
    && |vs| == |moves| && es != [] && Logged(evaluated, es, moves) && MaxShape(es, m, bi)
    && bestMove == moves[bi].pos
    && (Lt(alpha, beta) ==> FailSoft(MaxOf(vs), m.n, alpha, beta))
    && (alpha == NegInf && beta == PosInf ==>
      && |es| == |vs| && vs[bi] == m.n
      && forall j :: 0 <= j < bi ==> vs[j] < vs[bi])
  }

  /** The max loop's guarantee together with its logged evaluations. */
  ghost predicate MaxDone(vs: seq<int>, moves: seq<Entry>, alpha: ExtInt, beta: ExtInt,
    es: seq<int>, evaluated: seq<(int, Pos)>, m: ExtInt, bi: nat, bestMove: Pos)
  {
    MaxCoreDone(vs, moves, alpha, beta, es, evaluated, m, bi, bestMove) && MaxEvaluations(vs, es, alpha, beta)
  }

  /** Logging the evaluation e of the next child, searched with the current
      alpha a, keeps every logged evaluation tied to its child. */
  lemma MaxEvaluationsSnoc(vs: seq<int>, es: seq<int>, alpha: ExtInt, beta: ExtInt, a: ExtInt, e: int)
    requires MaxEvaluations(vs, es, alpha, beta) && a == RaisedAlpha(alpha, es) && |es| < |vs|
    requires Lt(alpha, beta) ==> FailSoft(vs[|es|], e, a, beta)
    ensures MaxEvaluations(vs, es + [e], alpha, beta) && RaisedAlpha(alpha, es + [e]) == Max(a, Fin(e))
  {
    var es' := es + [e];
    assert es'[..|es|] == es;
  }

  /** One step of the max loop's bookkeeping: the child for move |es|
      returned e. */
  lemma MaxCoreAdvance(vs: seq<int>, moves: seq<Entry>, alpha: ExtInt, beta: ExtInt, a: ExtInt,
    es: seq<int>, evaluated: seq<(int, Pos)>, m: ExtInt, bi: nat, bestMove: Pos, e: int)
    requires MaxCore(vs, moves, alpha, beta, a, es, evaluated, m, bi, bestMove) && |es| < |moves|
    requires Lt(a, beta) ==> FailSoft(vs[|es|], e, a, beta)
    ensures var up := Lt(m, Fin(e));
      var m' := if up then Fin(e) else m;
      var bi' := if up then |es| else bi;
      var best' := if up then moves[|es|].pos else bestMove;
      var a' := Max(a, Fin(e));
      var es' := es + [e];
      var ev' := evaluated + [(e, moves[|es|].pos)];
      && (Lt(a', beta) ==> MaxCore(vs, moves, alpha, beta, a', es', ev', m', bi', best'))
      && (!Lt(a', beta) ==> MaxCoreDone(vs, moves, alpha, beta, es', ev', m', bi', best'))
  {
    MaxStep(vs, es, alpha, beta, a, m, bi, e);
    LoggedSnoc(evaluated, es, moves, e);
  }

  /** One iteration of the max loop: the child for move |es| returned e. The
      loop either goes on with its invariant intact or stops with its
      guarantee. */
  lemma MaxAdvance(vs: seq<int>, moves: seq<Entry>, alpha: ExtInt, beta: ExtInt, a: ExtInt,
    es: seq<int>, evaluated: seq<(int, Pos)>, m: ExtInt, bi: nat, bestMove: Pos, e: int)
    requires MaxInv(vs, moves, alpha, beta, a, es, evaluated, m, bi, bestMove) && |es| < |moves|
    requires Lt(a, beta) ==> FailSoft(vs[|es|], e, a, beta)
    ensures var up := Lt(m, Fin(e));
      var m' := if up then Fin(e) else m;
      var bi' := if up then |es| else bi;
      var best' := if up then moves[|es|].pos else bestMove;
      var a' := Max(a, Fin(e));
      var es' := es + [e];
      var ev' := evaluated + [(e, moves[|es|].pos)];
      && (Lt(a', beta) ==> MaxInv(vs, moves, alpha, beta, a', es', ev', m', bi', best'))
      && (!Lt(a', beta) ==> MaxDone(vs, moves, alpha, beta, es', ev', m', bi', best'))
  {
    assert Lt(alpha, beta) ==> Lt(a, beta);
    MaxEvaluationsSnoc(vs, es, alpha, beta, a, e);
    MaxCoreAdvance(vs, moves, alpha, beta, a, es, evaluated, m, bi, bestMove, e);
  }

  /** A max loop that explored every stored move stops with its guarantee. */
  lemma MaxFinish(vs: seq<int>, moves: seq<Entry>, alpha: ExtInt, beta: ExtInt, a: ExtInt,
    es: seq<int>, evaluated: seq<(int, Pos)>, m: ExtInt, bi: nat, bestMove: Pos)
    requires MaxInv(vs, moves, alpha, beta, a, es, evaluated, m, bi, bestMove) && |es| == |moves| > 0
    ensures MaxDone(vs, moves, alpha, beta, es, evaluated, m, bi, bestMove)
  {
    MaxEnd(vs, es, alpha, beta, a, m, bi);
    if alpha == NegInf && beta == PosInf {
      FullWindowExact(MaxOf(vs), m.n);
    }
  }

  /** The min loop's bookkeeping: the mirror image of MaxCore. */
  ghost predicate MinCore(vs: seq<int>, moves: seq<Entry>, alpha: ExtInt, beta: ExtInt, b: ExtInt,
    es: seq<int>, evaluated: seq<(int, Pos)>, m: ExtInt, bi: nat, bestMove: Pos)
  {
    && |vs| == |moves| && Logged(evaluated, es, moves)
    && MinBound(vs, es, alpha, beta, b, m, bi) && b == Min(beta, m)
    && (es != [] ==> bestMove == moves[bi].pos)
  }

  /** The min loop's invariant: the mirror image of MaxInv. */
  ghost predicate MinInv(vs: seq<int>, moves: seq<Entry>, alpha: ExtInt, beta: ExtInt, b: ExtInt,
    es: seq<int>, evaluated: seq<(int, Pos)>, m: ExtInt, bi: nat, bestMove: Pos)
  {
    && MinCore(vs, moves, alpha, beta, b, es, evaluated, m, bi, bestMove)
    && b == LoweredBeta(beta, es) && MinEvaluations(vs, es, alpha, beta)
  }

  /** The min loop's guarantee: the mirror image of MaxCoreDone. */
  ghost predicate MinCoreDone(vs: seq<int>, moves: seq<Entry>, alpha: ExtInt, beta: ExtInt,
    es: seq<int>, evaluated: seq<(int, Pos)>, m: ExtInt, bi: nat, bestMove: Pos)
  {
    && |vs| == |moves| && es != [] && Logged(evaluated, es, moves) && MinShape(es, m, bi)
    && bestMove == moves[bi].pos
    && (Lt(alpha, beta) ==> FailSoft(MinOf(vs), m.n, alpha, beta))
    && (alpha == NegInf && beta == PosInf ==>
      && |es| == |vs| && vs[bi] == m.n
      && forall j :: 0 <= j < bi ==> vs[bi] < vs[j])
  }

  ghost predicate MinDone(vs: seq<int>, moves: seq<Entry>, alpha: ExtInt, beta: ExtInt,
    es: seq<int>, evaluated: seq<(int, Pos)>, m: ExtInt, bi: nat, bestMove: Pos)
  {
    MinCoreDone(vs, moves, alpha, beta, es, evaluated, m, bi, bestMove) && MinEvaluations(vs, es, alpha, beta)
  }

  lemma MinEvaluationsSnoc(vs: seq<int>, es: seq<int>, alpha: ExtInt, beta: ExtInt, b: ExtInt, e: int)
    requires MinEvaluations(vs, es, alpha, beta) && b == LoweredBeta(beta, es) && |es| < |vs|
    requires Lt(alpha, beta) ==> FailSoft(vs[|es|], e, alpha, b)
    ensures MinEvaluations(vs, es + [e], alpha, beta) && LoweredBeta(beta, es + [e]) == Min(b, Fin(e))
  {
    var es' := es + [e];
    assert es'[..|es|] == es;
  }

  lemma MinCoreAdvance(vs: seq<int>, moves: seq<Entry>, alpha: ExtInt, beta: ExtInt, b: ExtInt,
    es: seq<int>, evaluated: seq<(int, Pos)>, m: ExtInt, bi: nat, bestMove: Pos, e: int)
    requires MinCore(vs, moves, alpha, beta, b, es, evaluated, m, bi, bestMove) && |es| < |moves|
    requires Lt(alpha, b) ==> FailSoft(vs[|es|], e, alpha, b)
    ensures var down := Lt(Fin(e), m);
      var m' := if down then Fin(e) else m;
      var bi' := if down then |es| else bi;
      var best' := if down then moves[|es|].pos else bestMove;
      var b' := Min(b, Fin(e));
      var es' := es + [e];
      var ev' := evaluated + [(e, moves[|es|].pos)];
      && (Lt(alpha, b') ==> MinCore(vs, moves, alpha, beta, b', es', ev', m', bi', best'))
      && (!Lt(alpha, b') ==> MinCoreDone(vs, moves, alpha, beta, es', ev', m', bi', best'))
  {
    MinStep(vs, es, alpha, beta, b, m, bi, e);
    LoggedSnoc(evaluated, es, moves, e);
  }

  lemma MinAdvance(vs: seq<int>, moves: seq<Entry>, alpha: ExtInt, beta: ExtInt, b: ExtInt,
    es: seq<int>, evaluated: seq<(int, Pos)>, m: ExtInt, bi: nat, bestMove: Pos, e: int)
    requires MinInv(vs, moves, alpha, beta, b, es, evaluated, m, bi, bestMove) && |es| < |moves|
    requires Lt(alpha, b) ==> FailSoft(vs[|es|], e, alpha, b)
    ensures var down := Lt(Fin(e), m);
      var m' := if down then Fin(e) else m;
      var bi' := if down then |es| else bi;
      var best' := if down then moves[|es|].pos else bestMove;
      var b' := Min(b, Fin(e));
      var es' := es + [e];
      var ev' := evaluated + [(e, moves[|es|].pos)];
      && (Lt(alpha, b') ==> MinInv(vs, moves, alpha, beta, b', es', ev', m', bi', best'))
      && (!Lt(alpha, b') ==> MinDone(vs, moves, alpha, beta, es', ev', m', bi', best'))
  {
    assert Lt(alpha, beta) ==> Lt(alpha, b);
    MinEvaluationsSnoc(vs, es, alpha, beta, b, e);
    MinCoreAdvance(vs, moves, alpha, beta, b, es, evaluated, m, bi, bestMove, e);
  }

  lemma MinFinish(vs: seq<int>, moves: seq<Entry>, alpha: ExtInt, beta: ExtInt, b: ExtInt,
    es: seq<int>, evaluated: seq<(int, Pos)>, m: ExtInt, bi: nat, bestMove: Pos)
    requires MinInv(vs, moves, alpha, beta, b, es, evaluated, m, bi, bestMove) && |es| == |moves| > 0
    ensures MinDone(vs, moves, alpha, beta, es, evaluated, m, bi, bestMove)
  {
    MinEnd(vs, es, alpha, beta, b, m, bi);
    if alpha == NegInf && beta == PosInf {
      FullWindowExact(MinOf(vs), m.n);
    }
  }

  /** The log of a node whose children have true values vs: a reordering of
      one (evaluation, move) pair for each of the stored moves explored, in
      order, before the loop stopped. Each evaluation obeys the fail-soft
      guarantee for its child's value under the window that child was
      searched with, and best is the first explored move whose evaluation is
      the score, every earlier one being strictly worse for the side to move. */
  ghost predicate ExploredLog(log: seq<(int, Pos)>, vs: seq<int>, moves: seq<Entry>, alpha: ExtInt, beta: ExtInt,
    score: int, best: Pos, maxi: bool)
  {
    exists evaluated, es :: Logged(evaluated, es, moves) && multiset(log) == multiset(evaluated)
      && FirstBest(es, moves, best, score, maxi)
      && (if maxi then MaxEvaluations(vs, es, alpha, beta) else MinEvaluations(vs, es, alpha, beta))
  }

  /** What a max or min node returns: the score obeys the fail-soft guarantee
      for the best of the child values vs, best is a stored move, and the log
      is headed by the score, sorted for the node's role and is the explored
      log of evaluations tied to their children; with the full window every move was explored and best is the
      first best child. */
  ghost predicate NodeResult(vs: seq<int>, moves: seq<Entry>, alpha: ExtInt, beta: ExtInt,
    score: int, best: Pos, log: seq<(int, Pos)>, maxi: bool)
  {
    && |vs| == |moves| > 0
    && (Lt(alpha, beta) ==> FailSoft(if maxi then MaxOf(vs) else MinOf(vs), score, alpha, beta))
    && best in Keys(moves)
    && |log| > 0 && log[0].0 == score
    && (maxi ==> SortedDesc(log)) && (!maxi ==> SortedAsc(log))
    && (forall x :: x in log ==> x.1 in Keys(moves))
    && ExploredLog(log, vs, moves, alpha, beta, score, best, maxi)
    && (alpha == NegInf && beta == PosInf ==> |log| == |moves| && FirstBest(vs, moves, best, score, maxi))
  }

  /** A stopped max loop yields the node result with the log sorted best first. */
  lemma MaxResult(vs: seq<int>, moves: seq<Entry>, alpha: ExtInt, beta: ExtInt,
    es: seq<int>, evaluated: seq<(int, Pos)>, m: ExtInt, bi: nat, bestMove: Pos)
    requires MaxDone(vs, moves, alpha, beta, es, evaluated, m, bi, bestMove)
    ensures m.Fin? && NodeResult(vs, moves, alpha, beta, m.n, bestMove, SortDesc(evaluated), true)
  {
    MaxShapeIsMax(es, m, bi);
    DescLog(evaluated, es, moves);
    assert Keys(moves)[bi] == bestMove;
    assert FirstBest(es, moves, bestMove, m.n, true) && MaxEvaluations(vs, es, alpha, beta);
    assert Logged(evaluated, es, moves) && multiset(SortDesc(evaluated)) == multiset(evaluated);
  }

  /** A stopped min loop yields the node result with the log sorted lowest first. */
  lemma MinResult(vs: seq<int>, moves: seq<Entry>, alpha: ExtInt, beta: ExtInt,
    es: seq<int>, evaluated: seq<(int, Pos)>, m: ExtInt, bi: nat, bestMove: Pos)
    requires MinDone(vs, moves, alpha, beta, es, evaluated, m, bi, bestMove)
    ensures m.Fin? && NodeResult(vs, moves, alpha, beta, m.n, bestMove, SortAsc(evaluated), false)
  {
    MinShapeIsMin(es, m, bi);
    AscLog(evaluated, es, moves);
    assert Keys(moves)[bi] == bestMove;
    assert FirstBest(es, moves, bestMove, m.n, false) && MinEvaluations(vs, es, alpha, beta);
    assert Logged(evaluated, es, moves) && multiset(SortAsc(evaluated)) == multiset(evaluated);
  }
}
