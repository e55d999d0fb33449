// Per-bit deskew, as shared by the read and the write side of the DDR3 sequencer.
//
// Moving DQ by one tap and moving DQS by one tap act on one axis: bit i is
// sampled at y = (DQS delay) - (DQ delay), and its eye says for which y the
// test pattern comes back right.  A search begins with DQS at "start" and DQ at
// 0, that is at y == start; the left sweep adds DQ delay (y goes down), the
// right sweep adds DQS delay (y goes up).  Edges are kept relative to start:
// the left edge is start minus the least passing y, the right edge is the
// greatest passing y minus start.

module Deskew {
  import opened CArithmetic
  import opened BitVectors

  type EyeMap = (nat, int) -> bool

  ghost predicate Seen(eye: EyeMap, i: nat, lo: int, hi: int) {
    exists y :: lo <= y <= hi && eye(i, y)
  }

  ghost predicate Least(eye: EyeMap, i: nat, lo: int, hi: int, y: int) {
    && lo <= y <= hi && eye(i, y)
    && forall z :: lo <= z < y ==> !eye(i, z)
  }

  ghost predicate Greatest(eye: EyeMap, i: nat, lo: int, hi: int, y: int) {
    && lo <= y <= hi && eye(i, y)
    && forall z :: y < z <= hi ==> !eye(i, z)
  }

  // The passing settings of bit i have no gap.
  ghost predicate Interval(eye: EyeMap, i: nat) {
    forall a, b, c :: a <= b <= c && eye(i, a) && eye(i, c) ==> eye(i, b)
  }

  // What the two sweeps must leave behind for bit i after scanning lo..hi.
  ghost predicate Edges(eye: EyeMap, i: nat, start: int, lo: int, hi: int,
                        left: int, right: int, illegal: int) {
    if Seen(eye, i, lo, hi)
    then && Least(eye, i, lo, hi, start - left) && Greatest(eye, i, lo, hi, start + right)
         && left != illegal && right != illegal
    else right == illegal
  }

  ghost predicate AllEdges(eye: EyeMap, start: int, lo: int, hi: int,
                           left: seq<int>, right: seq<int>, illegal: int) {
    && |left| == |right|
    && forall i :: 0 <= i < |left| ==> Edges(eye, i, start, lo, hi, left[i], right[i], illegal)
  }

  // The edges of bit i after the left sweep has recorded DQ delays 0..n-1.
  ghost predicate LeftSwept(eye: EyeMap, i: nat, start: int, n: nat,
                            left: int, right: int, illegal: int) {
    if Seen(eye, i, start - n + 1, start)
    then && Least(eye, i, start - n + 1, start, start - left)
         && if eye(i, start) then right == illegal
            else Greatest(eye, i, start - n + 1, start, start + right) && right < 0
    else left == illegal && right == if n == 0 then illegal else 0 - n
  }

  // The edges of bit i when the left sweep covered lo..start and the right
  // sweep has recorded DQS offsets 0..n-1.
  ghost predicate RightSwept(eye: EyeMap, i: nat, start: int, lo: int, n: nat,
                             left: int, right: int, illegal: int) {
    if n == 0 then
      if Seen(eye, i, lo, start)
      then && Least(eye, i, lo, start, start - left)
           && if eye(i, start) then right == illegal
              else Greatest(eye, i, lo, start, start + right) && right < 0
      else left == illegal && right == illegal
    else
      if Seen(eye, i, lo, start + n - 1)
      then && Least(eye, i, lo, start + n - 1, start - left)
           && Greatest(eye, i, lo, start + n - 1, start + right)
      else left == 0 - n && right == illegal
  }

  // One bit's share of the body of the left sweep.
  function RecordLeft(pass: bool, d: nat, left: int, right: int, illegal: int): (int, int) {
    if pass then (d, right)
    else if left == illegal then (left, -(d + 1))
    else (left, right)
  }

  // One bit's share of the body of the right sweep.
  function RecordRight(pass: bool, d: nat, left: int, right: int, illegal: int): (int, int) {
    if pass then (left, d)
    else if d != 0 then
      if right == illegal then (-(d + 1), right) else (left, right)
    else
      if right == illegal && left != illegal then (left, -1)
      else if right == illegal then (-(d + 1), right)
      else (left, right)
  }

  // The state of the left sweep over all bits of a group: edges after n settings,
  // and which bits have passed so far.
  ghost predicate LeftState(eye: EyeMap, start: int, n: nat, left: seq<int>, right: seq<int>,
                            sticky: Bits, illegal: int) {
    && |left| == |right| == |sticky|
    && forall i :: 0 <= i < |left| ==>
         && LeftSwept(eye, i, start, n, left[i], right[i], illegal)
         && (sticky[i] <==> Seen(eye, i, start - n + 1, start))
  }

  // The state of the right sweep; sticky may lag behind, but never runs ahead.
  ghost predicate RightState(eye: EyeMap, start: int, lo: int, n: nat, left: seq<int>,
                             right: seq<int>, sticky: Bits, illegal: int) {
    && |left| == |right| == |sticky|
    && forall i :: 0 <= i < |left| ==>
         && RightSwept(eye, i, start, lo, n, left[i], right[i], illegal)
         && (sticky[i] ==> Seen(eye, i, lo, Max(start, start + n - 1)))
  }

  // The bits a test returns when the group is sampled at y.
  ghost predicate Sampled(eye: EyeMap, y: int, bits: Bits) {
    forall i :: 0 <= i < |bits| ==> bits[i] == eye(i, y)
  }

  // left1, right1 are left0, right0 after one setting of the left sweep.
  ghost predicate RecordedLeft(bits: Bits, d: nat, left0: seq<int>, right0: seq<int>,
                               left1: seq<int>, right1: seq<int>, illegal: int) {
    && |left0| == |right0| == |left1| == |right1| == |bits|
    && forall i :: 0 <= i < |bits| ==>
         (left1[i], right1[i]) == RecordLeft(bits[i], d, left0[i], right0[i], illegal)
  }

  ghost predicate RecordedRight(bits: Bits, d: nat, left0: seq<int>, right0: seq<int>,
                                left1: seq<int>, right1: seq<int>, illegal: int) {
    && |left0| == |right0| == |left1| == |right1| == |bits|
    && forall i :: 0 <= i < |bits| ==>
         (left1[i], right1[i]) == RecordRight(bits[i], d, left0[i], right0[i], illegal)
  }

  // Before the first setting both edges of every bit are the illegal value.
  lemma LeftStateStart(eye: EyeMap, start: int, left: seq<int>, right: seq<int>, illegal: int)
    requires |left| == |right|
    requires forall i :: 0 <= i < |left| ==> left[i] == right[i] == illegal
    ensures LeftState(eye, start, 0, left, right, AllClear(|left|), illegal)
  {
  }

  // Between the sweeps a right edge without a left edge is dropped.
  ghost predicate Reset(left: seq<int>, right0: seq<int>, right1: seq<int>, illegal: int) {
    && |left| == |right0| == |right1|
    && forall i :: 0 <= i < |left| ==> right1[i] == if left[i] == illegal then illegal else right0[i]
  }

  lemma ResetGivesRightState(eye: EyeMap, start: int, n: nat, left: seq<int>, right0: seq<int>,
                             passed: Bits, right1: seq<int>, sticky: Bits, illegal: int)
    requires LeftState(eye, start, n, left, right0, passed, illegal) && 0 < n <= illegal
    requires Reset(left, right0, right1, illegal) && |sticky| == |left|
    requires forall i :: 0 <= i < |left| && sticky[i] ==> left[i] != illegal
    ensures RightState(eye, start, start - n + 1, 0, left, right1, sticky, illegal)
  {
  }

  lemma LeftStateStep(eye: EyeMap, start: int, n: nat, left0: seq<int>, right0: seq<int>, sticky: Bits,
                      bits: Bits, left1: seq<int>, right1: seq<int>, illegal: int)
    requires LeftState(eye, start, n, left0, right0, sticky, illegal) && n < illegal
    requires Sampled(eye, start - n, bits)
    requires RecordedLeft(bits, n, left0, right0, left1, right1, illegal)
    ensures LeftState(eye, start, n + 1, left1, right1, Or(sticky, bits), illegal)
  {
  }

  lemma RightStateStep(eye: EyeMap, start: int, lo: int, n: nat, left0: seq<int>, right0: seq<int>,
                       sticky: Bits, bits: Bits, left1: seq<int>, right1: seq<int>, illegal: int)
    requires RightState(eye, start, lo, n, left0, right0, sticky, illegal)
    requires lo <= start && start - lo < illegal && n < illegal
    requires Sampled(eye, start + n, bits)
    requires RecordedRight(bits, n, left0, right0, left1, right1, illegal)
    ensures RightState(eye, start, lo, n + 1, left1, right1, Or(sticky, bits), illegal)
  {
  }

  // A test that fails on a bit leaves only earlier settings for it to have passed at.
  lemma SeenBefore(eye: EyeMap, i: nat, lo: int, hi: int, z: int)
    requires Seen(eye, i, lo, hi) && !eye(i, z) && hi <= z
    ensures Seen(eye, i, lo, z - 1)
  {
    var y :| lo <= y <= hi && eye(i, y);
    assert y <= z - 1;
  }

  // A setting that fails on every bit when every bit has passed stops the sweep.
  lemma LeftStop(eye: EyeMap, start: int, n: nat, left: seq<int>, right: seq<int>, sticky: Bits,
                 bits: Bits, illegal: int)
    requires LeftState(eye, start, n, left, right, sticky, illegal)
    requires |bits| == |sticky| && Sampled(eye, start - n, bits)
    requires !AnySet(bits) && AllSet(Or(sticky, bits)) && |left| > 0
    ensures n > 0 && AllFailAfterPassing(eye, |left|, start - n, start - n + 1, start)
  {
    hide LeftSwept, Seen;
    var z, lo := start - n, start - n + 1;
    forall i | 0 <= i < |left|
      ensures !eye(i, z) && Seen(eye, i, lo, start)
    {
      assert Or(sticky, bits)[i] && !bits[i];
      assert LeftSwept(eye, i, start, n, left[i], right[i], illegal) && bits[i] == eye(i, start - n);
    }
    var y := FirstSeen(eye, 0, lo, start);
  }

  lemma FirstSeen(eye: EyeMap, i: nat, lo: int, hi: int) returns (y: int)
    requires Seen(eye, i, lo, hi)
    ensures lo <= y <= hi && eye(i, y)
  {
    y :| lo <= y <= hi && eye(i, y);
  }

  lemma RightStop(eye: EyeMap, start: int, lo: int, n: nat, left: seq<int>, right: seq<int>,
                  sticky: Bits, bits: Bits, illegal: int)
    requires RightState(eye, start, lo, n, left, right, sticky, illegal)
    requires |bits| == |sticky| && Sampled(eye, start + n, bits)
    requires !AnySet(bits) && AllSet(Or(sticky, bits))
    ensures AllFailAfterPassing(eye, |left|, start + n, lo, start + n - 1)
  {
    hide RightSwept, Seen;
    var z, hi := start + n, start + n - 1;
    forall i | 0 <= i < |left|
      ensures !eye(i, z) && Seen(eye, i, lo, hi)
    {
      assert Or(sticky, bits)[i] && !bits[i];
      assert RightSwept(eye, i, start, lo, n, left[i], right[i], illegal) && bits[i] == eye(i, start + n);
      SeenBefore(eye, i, lo, Max(start, hi), z);
    }
  }

  // If the first setting of the right sweep fails on every bit, no bit has a left
  // edge only.
  lemma NoMarginalBits(eye: EyeMap, start: int, lo: int, left: seq<int>, right: seq<int>,
                       sticky: Bits, bits: Bits, illegal: int)
    requires RightState(eye, start, lo, 0, left, right, sticky, illegal)
    requires |bits| == |sticky| && Sampled(eye, start, bits) && !AnySet(bits) && illegal > 0
    ensures forall i :: 0 <= i < |left| ==> left[i] == illegal || right[i] != illegal
  {
    forall i | 0 <= i < |left|
      ensures left[i] == illegal || right[i] != illegal
    {
      assert RightSwept(eye, i, start, lo, 0, left[i], right[i], illegal) && !bits[i];
    }
  }

  // When the right sweep ends, the edges are the extremes of what was scanned.
  lemma RightSweptGivesEdges(eye: EyeMap, start: int, lo: int, n: nat, left: seq<int>, right: seq<int>,
                             sticky: Bits, illegal: int)
    requires RightState(eye, start, lo, n, left, right, sticky, illegal)
    requires lo <= start && start - lo < illegal && n <= illegal
    requires n == 0 ==> AllFailAfterPassing(eye, |left|, start, lo, start - 1)
    ensures AllEdges(eye, start, lo, Max(start, start + n - 1), left, right, illegal)
  {
  }

  // A sweep that stopped early lost nothing: the bit failed at z after it had
  // passed, so every unscanned setting of an interval eye fails too.  That no
  // window was found is reported exactly, interval or not.
  lemma ScanComplete(eye: EyeMap, i: nat, start: int, lo: int, hi: int, bottom: int, top: int,
                     z: int, left: int, right: int, illegal: int)
    requires bottom <= lo <= start <= hi <= top
    requires Edges(eye, i, start, lo, hi, left, right, illegal)
    requires lo > bottom ==> !eye(i, lo - 1) && Seen(eye, i, lo, start)
    requires hi < top ==> z <= hi + 1 && !eye(i, z) && Seen(eye, i, lo, z - 1)
    ensures right == illegal <==> !Seen(eye, i, bottom, top)
    ensures Interval(eye, i) ==> Edges(eye, i, start, bottom, top, left, right, illegal)
  {
  }

  // What a search over bottom..top tells about bit i, stop early or not: whether
  // a window exists, edges that are settings that passed, and, if the eye has no
  // gap, the true ends of the window.
  ghost predicate Measured(eye: EyeMap, i: nat, start: int, bottom: int, top: int,
                           left: int, right: int, illegal: int) {
    && (right == illegal <==> !Seen(eye, i, bottom, top))
    && (right != illegal ==>
          && left != illegal && bottom <= start - left <= start + right <= top
          && eye(i, start - left) && eye(i, start + right))
    && (Interval(eye, i) ==> Edges(eye, i, start, bottom, top, left, right, illegal))
  }

  ghost predicate AllMeasured(eye: EyeMap, start: int, bottom: int, top: int,
                              left: seq<int>, right: seq<int>, illegal: int) {
    && |left| == |right|
    && forall i :: 0 <= i < |left| ==> Measured(eye, i, start, bottom, top, left[i], right[i], illegal)
  }

  lemma AllScansComplete(eye: EyeMap, start: int, lo: int, hi: int, bottom: int, top: int,
                         z: int, left: seq<int>, right: seq<int>, illegal: int)
    requires bottom <= lo <= start <= hi <= top
    requires AllEdges(eye, start, lo, hi, left, right, illegal)
    requires lo > bottom ==> AllFailAfterPassing(eye, |left|, lo - 1, lo, start)
    requires hi < top ==> z <= hi + 1 && AllFailAfterPassing(eye, |left|, z, lo, z - 1)
    ensures AllMeasured(eye, start, bottom, top, left, right, illegal)
  {
    forall i | 0 <= i < |left|
      ensures Measured(eye, i, start, bottom, top, left[i], right[i], illegal)
    {
      ScanComplete(eye, i, start, lo, hi, bottom, top, z, left[i], right[i], illegal);
      assert Edges(eye, i, start, lo, hi, left[i], right[i], illegal);
    }
  }

  // Every one of w bits fails at z although it passed somewhere in lo..hi.
  ghost predicate AllFailAfterPassing(eye: EyeMap, w: nat, z: int, lo: int, hi: int) {
    forall i :: 0 <= i < w ==> !eye(i, z) && Seen(eye, i, lo, hi)
  }

  method MarkIllegal(left: array<int>, right: array<int>, illegal: int)
    requires left.Length == right.Length
    modifies left, right
    ensures forall i :: 0 <= i < left.Length ==> left[..][i] == right[..][i] == illegal
  {
    for i := 0 to left.Length
      invariant forall k :: 0 <= k < i ==> left[k] == right[k] == illegal
    {
      left[i] := illegal;
      right[i] := illegal;
    }
  }

  // The bit loop of the left sweep.
  method RecordLeftEdges(bits: Bits, d: nat, left: array<int>, right: array<int>, illegal: int)
    requires left != right && |bits| == left.Length == right.Length
    modifies left, right
    ensures RecordedLeft(bits, d, old(left[..]), old(right[..]), left[..], right[..], illegal)
  {
    for i := 0 to |bits|
      invariant forall k :: 0 <= k < i ==>
                  (left[k], right[k]) == RecordLeft(bits[k], d, old(left[k]), old(right[k]), illegal)
      invariant forall k :: i <= k < |bits| ==> left[k] == old(left[k]) && right[k] == old(right[k])
    {
      if bits[i] {
        left[i] := d;
      } else if left[i] == illegal {
        right[i] := -(d + 1);
      }
    }
  }

  // The bit loop of the right sweep.
  method RecordRightEdges(bits: Bits, d: nat, left: array<int>, right: array<int>, illegal: int)
    requires left != right && |bits| == left.Length == right.Length
    modifies left, right
    ensures RecordedRight(bits, d, old(left[..]), old(right[..]), left[..], right[..], illegal)
  {
    for i := 0 to |bits|
      invariant forall k :: 0 <= k < i ==>
                  (left[k], right[k]) == RecordRight(bits[k], d, old(left[k]), old(right[k]), illegal)
      invariant forall k :: i <= k < |bits| ==> left[k] == old(left[k]) && right[k] == old(right[k])
    {
      if bits[i] {
        right[i] := d;
      } else if d != 0 {
        if right[i] == illegal {
          left[i] := -(d + 1);
        }
      } else {
        if right[i] == illegal && left[i] != illegal {
          right[i] := -1;
        } else if right[i] == illegal {
          left[i] := -(d + 1);
        }
      }
    }
  }

  // The first bit that has no window; left.Length if every bit has one.
  method FirstWithoutWindow(left: array<int>, right: array<int>, illegal: int) returns (bit: nat)
    requires left.Length == right.Length
    ensures bit <= left.Length
    ensures forall k :: 0 <= k < bit ==> left[k] != illegal && right[k] != illegal
    ensures bit < left.Length ==> left[bit] == illegal || right[bit] == illegal
  {
    bit := 0;
    while bit < left.Length
      invariant bit <= left.Length
      invariant forall k :: 0 <= k < bit ==> left[k] != illegal && right[k] != illegal
    {
      if left[bit] == illegal || right[bit] == illegal {
        return;
      }
      bit := bit + 1;
    }
  }

  // A measured group is without a window at a bit exactly when an edge of that
  // bit is still the illegal value.
  lemma WindowsFromEdges(eye: EyeMap, start: int, bottom: int, top: int,
                         left: seq<int>, right: seq<int>, illegal: int, bit: nat)
    requires AllMeasured(eye, start, bottom, top, left, right, illegal) && bit <= |left|
    requires forall k :: 0 <= k < bit ==> left[k] != illegal && right[k] != illegal
    ensures forall k :: 0 <= k < bit ==> Seen(eye, k, bottom, top)
    ensures bit < |left| && (left[bit] == illegal || right[bit] == illegal) ==> !Seen(eye, bit, bottom, top)
  {
    forall k | 0 <= k < |left|
      ensures right[k] == illegal <==> !Seen(eye, k, bottom, top)
      ensures left[k] == illegal ==> right[k] == illegal
    {
      assert Measured(eye, k, start, bottom, top, left[k], right[k], illegal);
    }
  }

  // Which bit has the right-most window: the least left - right, first index.
  method FindMinIndex(left: array<int>, right: array<int>) returns (midMin: int, minIndex: nat)
    requires 0 < left.Length == right.Length
    ensures minIndex < left.Length && midMin == left[minIndex] - right[minIndex]
    ensures forall i :: 0 <= i < left.Length ==> midMin <= left[i] - right[i]
    ensures forall i :: 0 <= i < minIndex ==> midMin < left[i] - right[i]
  {
    midMin := left[0] - right[0];
    minIndex := 0;
    for i := 1 to left.Length
      invariant minIndex < i && midMin == left[minIndex] - right[minIndex]
      invariant forall k :: 0 <= k < i ==> midMin <= left[k] - right[k]
      invariant forall k :: 0 <= k < minIndex ==> midMin < left[k] - right[k]
    {
      var mid := left[i] - right[i];
      if mid < midMin {
        midMin := mid;
        minIndex := i;
      }
    }
  }

  // How far DQS has to move left, given the least left - right.
  function MidTaps(midMin: int): (m: int)
    ensures -1 <= midMin - 2 * m <= 0
  {
    HalfTowardZero(if midMin > 0 then midMin + 1 else midMin)
  }

  // The DQ delay that centres a window with sum left - right when the least sum
  // is midMin and DQS was moved left by dqsMove.
  function IdealDq(sum: int, midMin: int, dqsMove: int): int {
    HalfTowardZero(sum - midMin) + (MidTaps(midMin) - dqsMove)
  }

  // Where a DQ chain of dqMax taps ends up when it should be delayed by ideal.
  ghost predicate Placed(dq: int, ideal: int, dqMax: int) {
    dq == Clamp(0, ideal, dqMax)
  }

  // The left and right margins of a bit whose position moved by "moved" from start
  // differ by at most one tap.
  predicate Centred(left: int, right: int, moved: int) {
    -1 <= (left + moved) - (right - moved) <= 1
  }

  lemma IdealIsCentred(left: int, right: int, midMin: int, dqsMove: int)
    requires midMin <= left - right
    ensures Centred(left, right, -dqsMove - IdealDq(left - right, midMin, dqsMove))
  {
  }

  function SmallestMargin(left: int, right: int, moved: int): int {
    Min(left + moved, right - moved)
  }

  // The margins of the bits to their left and right edges, each bit with its DQ delay,
  // DQS having been moved left by dqsMove.
  function LeftMargins(left: seq<int>, dq: seq<int>, dqsMove: int): (ms: seq<int>)
    requires |left| == |dq|
    ensures |ms| == |left| && forall i :: 0 <= i < |ms| ==> ms[i] == left[i] - dq[i] - dqsMove
  {
    seq(|left|, i requires 0 <= i < |left| => left[i] - dq[i] - dqsMove)
  }

  function RightMargins(right: seq<int>, dq: seq<int>, dqsMove: int): (ms: seq<int>)
    requires |right| == |dq|
    ensures |ms| == |right| && forall i :: 0 <= i < |ms| ==> ms[i] == right[i] + dq[i] + dqsMove
  {
    seq(|right|, i requires 0 <= i < |right| => right[i] + dq[i] + dqsMove)
  }

  // m is the least of the margins, or cap if none is less.
  ghost predicate IsLeast(m: int, cap: int, ms: seq<int>) {
    m <= cap && (forall i :: 0 <= i < |ms| ==> m <= ms[i]) && (m == cap || m in ms)
  }

  // dqMargin and dqsMargin are the least margins of the first n bits of a group that
  // begins at pin bgn.
  ghost predicate LeastSoFar(bgn: nat, n: nat, dq: seq<int>, left: seq<int>, right: seq<int>, dqsMove: int, cap: int,
                             dqMargin: int, dqsMargin: int)
  {
    && n <= |left| == |right| && bgn + n <= |dq|
    && IsLeast(dqMargin, cap, LeftMargins(left[..n], dq[bgn..bgn + n], dqsMove))
    && IsLeast(dqsMargin, cap, RightMargins(right[..n], dq[bgn..bgn + n], dqsMove))
  }

  lemma LeastOfNone(bgn: nat, dq: seq<int>, left: seq<int>, right: seq<int>, dqsMove: int, cap: int)
    requires |left| == |right| && bgn <= |dq|
    ensures LeastSoFar(bgn, 0, dq, left, right, dqsMove, cap, cap, cap)
  {
  }

  lemma LeastNext(m: int, cap: int, ms: seq<int>, x: int)
    requires IsLeast(m, cap, ms)
    ensures IsLeast(Min(m, x), cap, ms + [x])
  {
  }

  lemma LeftMarginsNext(bgn: nat, n: nat, dq: seq<int>, shift: int, left: seq<int>, dqsMove: int)
    requires n < |left| && bgn + n < |dq|
    ensures LeftMargins(left[..n + 1], dq[bgn + n := shift][bgn..bgn + n + 1], dqsMove)
            == LeftMargins(left[..n], dq[bgn..bgn + n], dqsMove) + [left[n] - shift - dqsMove]
  {
    hide LeftMargins;
    assert dq[bgn + n := shift][bgn..bgn + n + 1] == dq[bgn..bgn + n] + [shift];
  }

  lemma RightMarginsNext(bgn: nat, n: nat, dq: seq<int>, shift: int, right: seq<int>, dqsMove: int)
    requires n < |right| && bgn + n < |dq|
    ensures RightMargins(right[..n + 1], dq[bgn + n := shift][bgn..bgn + n + 1], dqsMove)
            == RightMargins(right[..n], dq[bgn..bgn + n], dqsMove) + [right[n] + shift + dqsMove]
  {
    hide RightMargins;
    assert dq[bgn + n := shift][bgn..bgn + n + 1] == dq[bgn..bgn + n] + [shift];
  }

  // One more bit, its delay being shift.
  lemma LeastSoFarNext(bgn: nat, n: nat, dq: seq<int>, shift: int, left: seq<int>, right: seq<int>, dqsMove: int,
                       cap: int, dqMargin: int, dqsMargin: int)
    requires LeastSoFar(bgn, n, dq, left, right, dqsMove, cap, dqMargin, dqsMargin)
    requires n < |left| && bgn + n < |dq|
    ensures LeastSoFar(bgn, n + 1, dq[bgn + n := shift], left, right, dqsMove, cap,
                       Min(dqMargin, left[n] - shift - dqsMove), Min(dqsMargin, right[n] + shift + dqsMove))
  {
    hide IsLeast, LeftMargins, RightMargins;
    LeftMarginsNext(bgn, n, dq, shift, left, dqsMove);
    RightMarginsNext(bgn, n, dq, shift, right, dqsMove);
    LeastNext(dqMargin, cap, LeftMargins(left[..n], dq[bgn..bgn + n], dqsMove), left[n] - shift - dqsMove);
    LeastNext(dqsMargin, cap, RightMargins(right[..n], dq[bgn..bgn + n], dqsMove), right[n] + shift + dqsMove);
  }

  lemma LeastOfAll(bgn: nat, dq: seq<int>, left: seq<int>, right: seq<int>, dqsMove: int, cap: int,
                   dqMargin: int, dqsMargin: int)
    requires LeastSoFar(bgn, |left|, dq, left, right, dqsMove, cap, dqMargin, dqsMargin)
    ensures IsLeast(dqMargin, cap, LeftMargins(left, dq[bgn..bgn + |left|], dqsMove))
    ensures IsLeast(dqsMargin, cap, RightMargins(right, dq[bgn..bgn + |left|], dqsMove))
  {
    hide IsLeast;
    assert left[..|left|] == left && right[..|left|] == right;
  }

  // Wherever DQS is, no other DQ delay gives the bit a larger smallest margin.
  lemma BestDq(left: int, right: int, midMin: int, dqsMove: int, dqMax: nat, dq: int, dq': int)
    requires midMin <= left - right
    requires Placed(dq, IdealDq(left - right, midMin, dqsMove), dqMax)
    requires 0 <= dq' <= dqMax
    ensures SmallestMargin(left, right, -dqsMove - dq') <= SmallestMargin(left, right, -dqsMove - dq)
  {
  }

  // If the bit's chain is long enough, no other pair of DQS and DQ delays does.
  lemma BestDqsAndDq(left: int, right: int, midMin: int, start: int, dqsMax: nat, dqMax: nat,
                     dqs: int, dq: int, dqs': int, dq': int)
    requires midMin <= left - right && 0 <= start <= dqsMax
    requires dqs == Clamp(0, start - MidTaps(midMin), dqsMax)
    requires IdealDq(left - right, midMin, start - dqs) <= dqMax
    requires Placed(dq, IdealDq(left - right, midMin, start - dqs), dqMax)
    requires 0 <= dqs' <= dqsMax && 0 <= dq' <= dqMax
    ensures SmallestMargin(left, right, dqs' - dq' - start) <= SmallestMargin(left, right, dqs - dq - start)
  {
  }
}
