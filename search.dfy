/** What every copy of the alpha-beta search shares: the infinite sentinels,
    the fail-soft guarantee a pruned search gives about the true minimax value,
    the bookkeeping of one max or min node's loop over its children, and the
    sort that orders the decision log. */
module Search {

  /** A score or one of the infinite sentinels the search starts its window with. */
  datatype ExtInt = NegInf | Fin(n: int) | PosInf

  predicate Le(a: ExtInt, b: ExtInt) {
    a.NegInf? || b.PosInf? || (a.Fin? && b.Fin? && a.n <= b.n)
  }

  predicate Lt(a: ExtInt, b: ExtInt) {
    !Le(b, a)
  }

  function Max(a: ExtInt, b: ExtInt): (m: ExtInt)
    ensures Le(a, m) && Le(b, m) && (m == a || m == b)
  {
    if Le(a, b) then b else a
  }

  function Min(a: ExtInt, b: ExtInt): (m: ExtInt)
    ensures Le(m, a) && Le(m, b) && (m == a || m == b)
  {
    if Le(a, b) then a else b
  }

  /** The largest element of a non-empty sequence. */
  function MaxOf(s: seq<int>): (m: int)
    requires |s| > 0
    ensures (forall x :: x in s ==> x <= m) && m in s
  {
    if |s| == 1 then s[0]
    else
      var m0 := MaxOf(s[..|s| - 1]);
      assert forall x :: x in s ==> x in s[..|s| - 1] || x == s[|s| - 1];
      if s[|s| - 1] > m0 then s[|s| - 1] else m0
  }

  /** The smallest element of a non-empty sequence. */
  function MinOf(s: seq<int>): (m: int)
    requires |s| > 0
    ensures (forall x :: x in s ==> m <= x) && m in s
  {
    if |s| == 1 then s[0]
    else
      var m0 := MinOf(s[..|s| - 1]);
      assert forall x :: x in s ==> x in s[..|s| - 1] || x == s[|s| - 1];
      if s[|s| - 1] < m0 then s[|s| - 1] else m0
  }

  /** The guarantee of a fail-soft alpha-beta search that returned f for a
      node whose true minimax value is v, searched with window (alpha, beta):
      a result at or below alpha is an upper bound, one at or above beta is a
      lower bound, and one strictly inside the window is exact. */
  predicate FailSoft(v: int, f: int, alpha: ExtInt, beta: ExtInt) {
    && (Le(Fin(f), alpha) ==> v <= f)
    && (Le(beta, Fin(f)) ==> f <= v)
    && (Lt(alpha, Fin(f)) && Lt(Fin(f), beta) ==> v == f)
  }

  /** With the full window the search result is the minimax value. */
  lemma FullWindowExact(v: int, f: int)
    requires FailSoft(v, f, NegInf, PosInf)
    ensures v == f
  {
  }

  // ---------------------------------------------------------------------------
  // A max node's loop
  // ---------------------------------------------------------------------------

  /** After the evaluations es of the first |es| children: m is their maximum
      (NegInf before the first), held first by child bi. */
  predicate MaxShape(es: seq<int>, m: ExtInt, bi: nat) {
    if es == [] then m == NegInf && bi == 0
    else
      && bi < |es| && m == Fin(es[bi])
      && (forall j :: 0 <= j < |es| ==> es[j] <= es[bi])
      && (forall j :: 0 <= j < bi ==> es[j] < es[bi])
  }

  /** What a max node knows about the true child values vs while it keeps
      going: the window is still open, no explored child is worth more than
      its returned evaluation, and the best one is exact once it beats alpha0. */
  predicate MaxBound(vs: seq<int>, es: seq<int>, a0: ExtInt, beta: ExtInt, alpha: ExtInt, m: ExtInt, bi: nat) {
    |es| <= |vs| && MaxShape(es, m, bi) &&
    (Lt(a0, beta) ==>
      && Lt(alpha, beta)
      && (forall j :: 0 <= j < |es| ==> vs[j] <= es[j])
      && (es != [] && Lt(a0, m) ==> vs[bi] == es[bi]))
  }

  /** The alpha a max node searches its next child with, after the
      evaluations es: the node's alpha raised by each of them in turn. */
  function RaisedAlpha(alpha: ExtInt, es: seq<int>): ExtInt {
    if es == [] then alpha else Max(RaisedAlpha(alpha, es[..|es| - 1]), Fin(es[|es| - 1]))
  }

  /** The evaluations es a max node logged, one per explored child, as its
      loop appends them: each is what that child's search returned with the
      window of its turn, (alpha raised by the evaluations before it, beta),
      so it obeys the fail-soft guarantee for the child's true value. */
  predicate MaxEvaluations(vs: seq<int>, es: seq<int>, alpha: ExtInt, beta: ExtInt)
    decreases |es|
  {
    |es| <= |vs| &&
    (es != [] ==>
      var k := |es| - 1;
      && MaxEvaluations(vs, es[..k], alpha, beta)
      && (Lt(alpha, beta) ==> FailSoft(vs[k], es[k], RaisedAlpha(alpha, es[..k]), beta)))
  }

  /** Child j's logged evaluation obeys the fail-soft guarantee for its value
      under the window child j was searched with. */
  lemma {:induction false} MaxEvaluationAt(vs: seq<int>, es: seq<int>, alpha: ExtInt, beta: ExtInt, j: nat)
    requires MaxEvaluations(vs, es, alpha, beta) && Lt(alpha, beta) && j < |es|
    ensures j < |vs| && FailSoft(vs[j], es[j], RaisedAlpha(alpha, es[..j]), beta)
    decreases |es|
  {
    var k := |es| - 1;
    if j < k {
      MaxEvaluationAt(vs, es[..k], alpha, beta, j);
      assert es[..k][..j] == es[..j];
    }
  }

  /** With no upper bound, every evaluation a max node logged is at least its
      child's true value. */
  lemma {:induction false} MaxEvaluationsUpper(vs: seq<int>, es: seq<int>, alpha: ExtInt)
    requires MaxEvaluations(vs, es, alpha, PosInf) && alpha != PosInf
    ensures |es| <= |vs| && forall j :: 0 <= j < |es| ==> vs[j] <= es[j]
  {
    forall j | 0 <= j < |es| ensures vs[j] <= es[j] {
      MaxEvaluationAt(vs, es, alpha, PosInf, j);
    }
  }

  /** The new maximum and its holder after evaluation e. */
  function MaxAfter(es: seq<int>, m: ExtInt, bi: nat, e: int): (ExtInt, nat) {
    if Lt(m, Fin(e)) then (Fin(e), |es|) else (m, bi)
  }

  /** One iteration of a max node: the child searched with (alpha, beta)
      returned e. The loop either goes on with its bookkeeping intact, or
      cuts off with a result that is a lower bound of the node's value. */
  lemma MaxStep(vs: seq<int>, es: seq<int>, a0: ExtInt, beta: ExtInt, alpha: ExtInt, m: ExtInt, bi: nat, e: int)
    requires MaxBound(vs, es, a0, beta, alpha, m, bi) && alpha == Max(a0, m) && |es| < |vs|
    requires Lt(a0, beta) ==> FailSoft(vs[|es|], e, alpha, beta)
    ensures var next := MaxAfter(es, m, bi, e);
      && MaxShape(es + [e], next.0, next.1)
      && Max(alpha, Fin(e)) == Max(a0, next.0)
      && (Lt(Max(alpha, Fin(e)), beta) ==> MaxBound(vs, es + [e], a0, beta, Max(alpha, Fin(e)), next.0, next.1))
      && (!Lt(Max(alpha, Fin(e)), beta) && Lt(a0, beta) ==> FailSoft(MaxOf(vs), next.0.n, a0, beta))
  {
    var es' := es + [e];
    var next := MaxAfter(es, m, bi, e);
    var k := |es|;
    forall j | 0 <= j < |es'| ensures es'[j] <= es'[next.1] {
      if j < k { assert es'[j] == es[j]; }
    }
    forall j | 0 <= j < next.1 ensures es'[j] < es'[next.1] {
      assert es'[j] == es[j];
    }
    if Lt(a0, beta) {
      if Lt(Max(alpha, Fin(e)), beta) {
        forall j | 0 <= j < |es'| ensures vs[j] <= es'[j] {
          if j < k { assert es'[j] == es[j]; }
        }
      } else {
        assert vs[k] in vs;
      }
    }
  }

  /** A max node that explored every child without a cut-off: its result obeys
      the fail-soft guarantee for the maximum of the child values, and with
      the full window its best child is the first whose value is that maximum. */
  lemma MaxEnd(vs: seq<int>, es: seq<int>, a0: ExtInt, beta: ExtInt, alpha: ExtInt, m: ExtInt, bi: nat)
    requires MaxBound(vs, es, a0, beta, alpha, m, bi) && alpha == Max(a0, m) && |es| == |vs| > 0
    ensures m.Fin? && bi < |vs|
    ensures Lt(a0, beta) ==> FailSoft(MaxOf(vs), m.n, a0, beta)
    ensures a0 == NegInf && beta == PosInf ==>
      vs[bi] == MaxOf(vs) && forall j :: 0 <= j < bi ==> vs[j] < vs[bi]
  {
    if Lt(a0, beta) {
      assert vs[bi] in vs;
      forall x | x in vs ensures x <= m.n {
        var j :| 0 <= j < |vs| && vs[j] == x;
      }
    }
  }

  /** The running maximum is the maximum of the evaluations seen so far. */
  lemma MaxShapeIsMax(es: seq<int>, m: ExtInt, bi: nat)
    requires MaxShape(es, m, bi) && es != []
    ensures m == Fin(MaxOf(es))
  {
    assert es[bi] in es;
    forall x | x in es ensures x <= es[bi] {
      var j :| 0 <= j < |es| && es[j] == x;
    }
  }

  // ---------------------------------------------------------------------------
  // A min node's loop (the mirror image)
  // ---------------------------------------------------------------------------

  predicate MinShape(es: seq<int>, m: ExtInt, bi: nat) {
    if es == [] then m == PosInf && bi == 0
    else
      && bi < |es| && m == Fin(es[bi])
      && (forall j :: 0 <= j < |es| ==> es[bi] <= es[j])
      && (forall j :: 0 <= j < bi ==> es[bi] < es[j])
  }

  predicate MinBound(vs: seq<int>, es: seq<int>, alpha: ExtInt, b0: ExtInt, beta: ExtInt, m: ExtInt, bi: nat) {
    |es| <= |vs| && MinShape(es, m, bi) &&
    (Lt(alpha, b0) ==>
      && Lt(alpha, beta)
      && (forall j :: 0 <= j < |es| ==> es[j] <= vs[j])
      && (es != [] && Lt(m, b0) ==> vs[bi] == es[bi]))
  }

  /** The beta a min node searches its next child with: the node's beta
      lowered by each evaluation in turn. */
  function LoweredBeta(beta: ExtInt, es: seq<int>): ExtInt {
    if es == [] then beta else Min(LoweredBeta(beta, es[..|es| - 1]), Fin(es[|es| - 1]))
  }

  /** The evaluations a min node logged: each obeys the fail-soft guarantee
      for its child's true value under (alpha, beta lowered by the
      evaluations before it). */
  predicate MinEvaluations(vs: seq<int>, es: seq<int>, alpha: ExtInt, beta: ExtInt)
    decreases |es|
  {
    |es| <= |vs| &&
    (es != [] ==>
      var k := |es| - 1;
      && MinEvaluations(vs, es[..k], alpha, beta)
      && (Lt(alpha, beta) ==> FailSoft(vs[k], es[k], alpha, LoweredBeta(beta, es[..k]))))
  }

  lemma {:induction false} MinEvaluationAt(vs: seq<int>, es: seq<int>, alpha: ExtInt, beta: ExtInt, j: nat)
    requires MinEvaluations(vs, es, alpha, beta) && Lt(alpha, beta) && j < |es|
    ensures j < |vs| && FailSoft(vs[j], es[j], alpha, LoweredBeta(beta, es[..j]))
    decreases |es|
  {
    var k := |es| - 1;
    if j < k {
      MinEvaluationAt(vs, es[..k], alpha, beta, j);
      assert es[..k][..j] == es[..j];
    }
  }

  /** With no lower bound, every evaluation a min node logged is at most its
      child's true value. */
  lemma {:induction false} MinEvaluationsLower(vs: seq<int>, es: seq<int>, beta: ExtInt)
    requires MinEvaluations(vs, es, NegInf, beta) && beta != NegInf
    ensures |es| <= |vs| && forall j :: 0 <= j < |es| ==> es[j] <= vs[j]
  {
    forall j | 0 <= j < |es| ensures es[j] <= vs[j] {
      MinEvaluationAt(vs, es, NegInf, beta, j);
    }
  }

  function MinAfter(es: seq<int>, m: ExtInt, bi: nat, e: int): (ExtInt, nat) {
    if Lt(Fin(e), m) then (Fin(e), |es|) else (m, bi)
  }

  lemma MinStep(vs: seq<int>, es: seq<int>, alpha: ExtInt, b0: ExtInt, beta: ExtInt, m: ExtInt, bi: nat, e: int)
    requires MinBound(vs, es, alpha, b0, beta, m, bi) && beta == Min(b0, m) && |es| < |vs|
    requires Lt(alpha, b0) ==> FailSoft(vs[|es|], e, alpha, beta)
    ensures var next := MinAfter(es, m, bi, e);
      && MinShape(es + [e], next.0, next.1)
      && Min(beta, Fin(e)) == Min(b0, next.0)
      && (Lt(alpha, Min(beta, Fin(e))) ==> MinBound(vs, es + [e], alpha, b0, Min(beta, Fin(e)), next.0, next.1))
      && (!Lt(alpha, Min(beta, Fin(e))) && Lt(alpha, b0) ==> FailSoft(MinOf(vs), next.0.n, alpha, b0))
  {
    var es' := es + [e];
    var next := MinAfter(es, m, bi, e);
    var k := |es|;
    forall j | 0 <= j < |es'| ensures es'[next.1] <= es'[j] {
      if j < k { assert es'[j] == es[j]; }
    }
    forall j | 0 <= j < next.1 ensures es'[next.1] < es'[j] {
      assert es'[j] == es[j];
    }
    if Lt(alpha, b0) {
      if Lt(alpha, Min(beta, Fin(e))) {
        forall j | 0 <= j < |es'| ensures es'[j] <= vs[j] {
          if j < k { assert es'[j] == es[j]; }
        }
      } else {
        assert vs[k] in vs;
      }
    }
  }

  lemma MinEnd(vs: seq<int>, es: seq<int>, alpha: ExtInt, b0: ExtInt, beta: ExtInt, m: ExtInt, bi: nat)
    requires MinBound(vs, es, alpha, b0, beta, m, bi) && beta == Min(b0, m) && |es| == |vs| > 0
    ensures m.Fin? && bi < |vs|
    ensures Lt(alpha, b0) ==> FailSoft(MinOf(vs), m.n, alpha, b0)
    ensures alpha == NegInf && b0 == PosInf ==>
      vs[bi] == MinOf(vs) && forall j :: 0 <= j < bi ==> vs[bi] < vs[j]
  {
    if Lt(alpha, b0) {
      assert vs[bi] in vs;
      forall x | x in vs ensures m.n <= x {
        var j :| 0 <= j < |vs| && vs[j] == x;
      }
    }
  }

  lemma MinShapeIsMin(es: seq<int>, m: ExtInt, bi: nat)
    requires MinShape(es, m, bi) && es != []
    ensures m == Fin(MinOf(es))
  {
    assert es[bi] in es;
    forall x | x in es ensures es[bi] <= x {
      var j :| 0 <= j < |es| && es[j] == x;
    }
  }

  // ---------------------------------------------------------------------------
  // The decision log: (score, move) pairs, sorted by score
  // ---------------------------------------------------------------------------

  function Scores<M>(log: seq<(int, M)>): (s: seq<int>)
    ensures |s| == |log| && forall i :: 0 <= i < |log| ==> s[i] == log[i].0
  {
    if log == [] then [] else Scores(log[..|log| - 1]) + [log[|log| - 1].0]
  }

  predicate SortedDesc<M>(s: seq<(int, M)>) {
    forall i, j :: 0 <= i < j < |s| ==> s[i].0 >= s[j].0
  }

  predicate SortedAsc<M>(s: seq<(int, M)>) {
    forall i, j :: 0 <= i < j < |s| ==> s[i].0 <= s[j].0
  }

  /** Inserts x into a descending list after every entry whose score is at
      least x's, so equal scores keep their original order. */
  function InsertDesc<M>(t: seq<(int, M)>, x: (int, M)): seq<(int, M)> {
    if t == [] || t[|t| - 1].0 >= x.0 then t + [x]
    else InsertDesc(t[..|t| - 1], x) + [t[|t| - 1]]
  }

  function InsertAsc<M>(t: seq<(int, M)>, x: (int, M)): seq<(int, M)> {
    if t == [] || t[|t| - 1].0 <= x.0 then t + [x]
    else InsertAsc(t[..|t| - 1], x) + [t[|t| - 1]]
  }

  /** A stable sort by descending score: the log of a max node. */
  function SortDesc<M>(s: seq<(int, M)>): seq<(int, M)> {
    if s == [] then [] else InsertDesc(SortDesc(s[..|s| - 1]), s[|s| - 1])
  }

  /** A stable sort by ascending score: the log of a min node. */
  function SortAsc<M>(s: seq<(int, M)>): seq<(int, M)> {
    if s == [] then [] else InsertAsc(SortAsc(s[..|s| - 1]), s[|s| - 1])
  }

  lemma {:induction false} InsertDescPerm<M>(t: seq<(int, M)>, x: (int, M))
    ensures multiset(InsertDesc(t, x)) == multiset(t) + multiset{x}
  {
    if !(t == [] || t[|t| - 1].0 >= x.0) {
      InsertDescPerm(t[..|t| - 1], x);
      assert t == t[..|t| - 1] + [t[|t| - 1]];
    }
  }

  lemma SortedDescSnoc<M>(u: seq<(int, M)>, last: (int, M))
    requires SortedDesc(u) && forall y :: y in u ==> y.0 >= last.0
    ensures SortedDesc(u + [last])
  {
    var w := u + [last];
    forall i, j | 0 <= i < j < |w| ensures w[i].0 >= w[j].0 {
      assert w[i] == u[i];
      if j < |u| {
        assert w[j] == u[j];
      } else {
        assert u[i] in u;
      }
    }
  }

  lemma SortedDescLast<M>(t: seq<(int, M)>)
    requires SortedDesc(t) && |t| > 0
    ensures SortedDesc(t[..|t| - 1]) && forall y :: y in t[..|t| - 1] ==> y.0 >= t[|t| - 1].0
  {
  }

  lemma {:induction false} InsertDescFacts<M>(t: seq<(int, M)>, x: (int, M))
    requires SortedDesc(t)
    ensures SortedDesc(InsertDesc(t, x)) && multiset(InsertDesc(t, x)) == multiset(t) + multiset{x}
  {
    InsertDescPerm(t, x);
    if !(t == [] || t[|t| - 1].0 >= x.0) {
      var pre := t[..|t| - 1];
      SortedDescLast(t);
      InsertDescFacts(pre, x);
      forall y | y in InsertDesc(pre, x) ensures y.0 >= t[|t| - 1].0 {
        assert y in multiset(InsertDesc(pre, x));
      }
      SortedDescSnoc(InsertDesc(pre, x), t[|t| - 1]);
    }
  }

  lemma {:induction false} InsertAscPerm<M>(t: seq<(int, M)>, x: (int, M))
    ensures multiset(InsertAsc(t, x)) == multiset(t) + multiset{x}
  {
    if !(t == [] || t[|t| - 1].0 <= x.0) {
      InsertAscPerm(t[..|t| - 1], x);
      assert t == t[..|t| - 1] + [t[|t| - 1]];
    }
  }

  lemma SortedAscSnoc<M>(u: seq<(int, M)>, last: (int, M))
    requires SortedAsc(u) && forall y :: y in u ==> y.0 <= last.0
    ensures SortedAsc(u + [last])
  {
    var w := u + [last];
    forall i, j | 0 <= i < j < |w| ensures w[i].0 <= w[j].0 {
      assert w[i] == u[i];
      if j < |u| {
        assert w[j] == u[j];
      } else {
        assert u[i] in u;
      }
    }
  }

  lemma SortedAscLast<M>(t: seq<(int, M)>)
    requires SortedAsc(t) && |t| > 0
    ensures SortedAsc(t[..|t| - 1]) && forall y :: y in t[..|t| - 1] ==> y.0 <= t[|t| - 1].0
  {
  }

  lemma {:induction false} InsertAscFacts<M>(t: seq<(int, M)>, x: (int, M))
    requires SortedAsc(t)
    ensures SortedAsc(InsertAsc(t, x)) && multiset(InsertAsc(t, x)) == multiset(t) + multiset{x}
  {
    InsertAscPerm(t, x);
    if !(t == [] || t[|t| - 1].0 <= x.0) {
      var pre := t[..|t| - 1];
      SortedAscLast(t);
      InsertAscFacts(pre, x);
      forall y | y in InsertAsc(pre, x) ensures y.0 <= t[|t| - 1].0 {
        assert y in multiset(InsertAsc(pre, x));
      }
      SortedAscSnoc(InsertAsc(pre, x), t[|t| - 1]);
    }
  }

  /** The max-node log is sorted by descending score and is a permutation of
      the evaluated moves. */
  lemma {:induction false} SortDescFacts<M>(s: seq<(int, M)>)
    ensures SortedDesc(SortDesc(s)) && multiset(SortDesc(s)) == multiset(s)
  {
    SortDescSorted(s);
    SortDescPerm(s);
  }

  lemma {:induction false} SortDescSorted<M>(s: seq<(int, M)>)
    ensures SortedDesc(SortDesc(s))
  {
    if s != [] {
      SortDescSorted(s[..|s| - 1]);
      InsertDescFacts(SortDesc(s[..|s| - 1]), s[|s| - 1]);
    }
  }

  lemma {:induction false} SortDescPerm<M>(s: seq<(int, M)>)
    ensures multiset(SortDesc(s)) == multiset(s)
  {
    if s != [] {
      var init, x := s[..|s| - 1], s[|s| - 1];
      SortDescPerm(init);
      InsertDescPerm(SortDesc(init), x);
      assert s == init + [x];
    }
  }

  /** The min-node log is sorted by ascending score and is a permutation of
      the evaluated moves. */
  lemma {:induction false} SortAscFacts<M>(s: seq<(int, M)>)
    ensures SortedAsc(SortAsc(s)) && multiset(SortAsc(s)) == multiset(s)
  {
    SortAscSorted(s);
    SortAscPerm(s);
  }

  lemma {:induction false} SortAscSorted<M>(s: seq<(int, M)>)
    ensures SortedAsc(SortAsc(s))
  {
    if s != [] {
      SortAscSorted(s[..|s| - 1]);
      InsertAscFacts(SortAsc(s[..|s| - 1]), s[|s| - 1]);
    }
  }

  lemma {:induction false} SortAscPerm<M>(s: seq<(int, M)>)
    ensures multiset(SortAsc(s)) == multiset(s)
  {
    if s != [] {
      var init, x := s[..|s| - 1], s[|s| - 1];
      SortAscPerm(init);
      InsertAscPerm(SortAsc(init), x);
      assert s == init + [x];
    }
  }

  /** The head of the sorted max-node log carries the largest score. */
  lemma SortDescHead<M>(s: seq<(int, M)>)
    requires |s| > 0
    ensures |SortDesc(s)| == |s| && SortDesc(s)[0].0 == MaxOf(Scores(s))
  {
    SortDescFacts(s);
    var t := SortDesc(s);
    assert |t| == |multiset(t)| == |multiset(s)| == |s|;
    var m := MaxOf(Scores(s));
    var i :| 0 <= i < |s| && Scores(s)[i] == m;
    assert s[i] in multiset(t);
    var j :| 0 <= j < |t| && t[j] == s[i];
    assert t[0] in multiset(s);
    var k :| 0 <= k < |s| && s[k] == t[0];
    assert Scores(s)[k] in Scores(s);
  }

  /** The head of the sorted min-node log carries the smallest score. */
  lemma SortAscHead<M>(s: seq<(int, M)>)
    requires |s| > 0
    ensures |SortAsc(s)| == |s| && SortAsc(s)[0].0 == MinOf(Scores(s))
  {
    SortAscFacts(s);
    var t := SortAsc(s);
    assert |t| == |multiset(t)| == |multiset(s)| == |s|;
    var m := MinOf(Scores(s));
    var i :| 0 <= i < |s| && Scores(s)[i] == m;
    assert s[i] in multiset(t);
    var j :| 0 <= j < |t| && t[j] == s[i];
    assert t[0] in multiset(s);
    var k :| 0 <= k < |s| && s[k] == t[0];
    assert Scores(s)[k] in Scores(s);
  }
}
