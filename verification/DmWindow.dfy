// The data-mask search of the write side: two sweeps along one axis, merged at
// 0, that keep the best run of passing settings seen so far.

module DmWindow {
  import opened CArithmetic

  ghost predicate AllPass(pass: int -> bool, a: int, b: int) {
    forall z :: a <= z <= b ==> pass(z)
  }

  // a..b is a run of passing settings inside lo..hi.
  ghost predicate IsRun(pass: int -> bool, lo: int, hi: int, a: int, b: int) {
    lo <= a <= b <= hi && AllPass(pass, a, b)
  }

  // bgn..end is the left-most of the longest runs in lo..hi; win is its length,
  // 0 if nothing passes.
  ghost predicate IsBest(pass: int -> bool, lo: int, hi: int, bgn: int, end: int, win: int) {
    && win >= 0
    && (win > 0 ==> IsRun(pass, lo, hi, bgn, end) && win == end - bgn + 1)
    && (forall a, b :: IsRun(pass, lo, hi, a, b) ==>
          b - a + 1 <= win && (b - a + 1 == win ==> bgn <= a))
  }

  // The edges of the run that reaches hi, or the illegal value if hi fails.
  ghost predicate IsCurrent(pass: int -> bool, lo: int, hi: int, bgn: int, end: int, illegal: int) {
    if lo <= hi && pass(hi)
    then IsRun(pass, lo, hi, bgn, hi) && end == hi && (lo < bgn ==> !pass(bgn - 1))
    else bgn == illegal && end == illegal
  }

  // The search state, as the source's five variables.
  datatype State = State(bgnCurr: int, endCurr: int, bgnBest: int, endBest: int, win: int)

  function Start(illegal: int): State {
    State(illegal, illegal, illegal, illegal, 0)
  }

  // One tested setting x.
  function Step(s: State, x: int, pass: bool, illegal: int): State {
    if pass then
      var bgn := if s.bgnCurr == illegal then x else s.bgnCurr;
      if x - bgn + 1 > s.win then State(bgn, x, bgn, x, x - bgn + 1)
      else s.(bgnCurr := bgn, endCurr := x)
    else s.(bgnCurr := illegal, endCurr := illegal)
  }

  // s is what the search must know after lo..hi.
  ghost predicate Knows(pass: int -> bool, lo: int, hi: int, s: State, illegal: int) {
    && IsCurrent(pass, lo, hi, s.bgnCurr, s.endCurr, illegal)
    && IsBest(pass, lo, hi, s.bgnBest, s.endBest, s.win)
    && (s.win == 0 ==> s.bgnBest == s.endBest == illegal)
  }

  lemma StartKnows(pass: int -> bool, lo: int, illegal: int)
    ensures Knows(pass, lo, lo - 1, Start(illegal), illegal)
  {
  }

  lemma StepKnows(pass: int -> bool, lo: int, hi: int, s: State, illegal: int)
    requires Knows(pass, lo, hi, s, illegal) && lo <= hi + 1 < illegal
    ensures Knows(pass, lo, hi + 1, Step(s, hi + 1, pass(hi + 1), illegal), illegal)
  {
    var x := hi + 1;
    var s' := Step(s, x, pass(x), illegal);
    forall a, b | IsRun(pass, lo, x, a, b)
      ensures b - a + 1 <= s'.win && (b - a + 1 == s'.win ==> s'.bgnBest <= a)
    {
      if b <= hi {
        assert IsRun(pass, lo, hi, a, b);
      } else {
        assert pass(x);
      }
    }
  }

  // The second sweep tests 0 again.
  lemma StepAgain(pass: int -> bool, lo: int, hi: int, s: State, illegal: int)
    requires Knows(pass, lo, hi, s, illegal) && lo <= hi < illegal
    ensures Step(s, hi, pass(hi), illegal) == s
  {
    if pass(hi) {
      assert IsRun(pass, lo, hi, s.bgnCurr, hi);
    }
  }

  // Giving up at a failing x, with less chain left than the best run minus one,
  // does not change the answer.
  lemma EarlyExitIsBest(pass: int -> bool, lo: int, x: int, hi: int, bgn: int, end: int, win: int)
    requires IsBest(pass, lo, x, bgn, end, win) && lo <= x <= hi && !pass(x) && win - 1 > hi - x
    ensures IsBest(pass, lo, hi, bgn, end, win)
  {
    forall a, b | IsRun(pass, lo, hi, a, b)
      ensures b - a + 1 <= win && (b - a + 1 == win ==> bgn <= a)
    {
      if a <= x {
        assert b < x;
        assert IsRun(pass, lo, x, a, b);
      }
    }
  }

  lemma RunPasses(pass: int -> bool, lo: int, hi: int, a: int, b: int, x: int)
    requires IsRun(pass, lo, hi, a, b) && a <= x <= b
    ensures pass(x)
  {
  }

  // There is only one answer.
  lemma BestIsUnique(pass: int -> bool, lo: int, hi: int, bgn: int, end: int, win: int,
                     bgn': int, end': int, win': int)
    requires IsBest(pass, lo, hi, bgn, end, win) && IsBest(pass, lo, hi, bgn', end', win')
    ensures win == win' && (win > 0 ==> bgn == bgn' && end == end')
  {
  }

  // DM can only be delayed.  The delay chosen for the window bgn..end is its
  // centre, or 0 if the centre lies on the other side.
  function DmTaps(bgn: int, end: int): (mid: int)
    ensures mid >= 0
  {
    Max(0, HalfTowardZero(-bgn - end))
  }

  // The DM margin is not negative exactly when the chosen delay is in the window, and
  // the window is centred on the delay within one tap exactly when its own centre is
  // not past 0.
  lemma DmMarginMeansInside(bgn: int, end: int)
    requires bgn <= end
    ensures -bgn - DmTaps(bgn, end) >= 0 <==> bgn <= -DmTaps(bgn, end) <= end
    ensures Centred(bgn, end) <==> bgn + end <= 1
  {
  }

  predicate Centred(bgn: int, end: int) {
    -1 <= (-DmTaps(bgn, end) - bgn) - (end + DmTaps(bgn, end)) <= 1
  }
}
