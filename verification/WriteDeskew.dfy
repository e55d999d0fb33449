// rw_mgr_mem_calibrate_writes_center: per-bit deskew of one write group, then the
// data-mask window, with the SCC output delay registers as state.

module WriteDeskew {
  import opened CArithmetic
  import opened BitVectors
  import opened Deskew
  import DmWindow

  datatype Report =
    | NoWindow(bit: nat)
    | Margins(left: seq<int>, right: seq<int>, minIndex: nat, dm: DmWindow.State,
              dqMargin: int, dqsMargin: int, dmMargin: int)

  class WritePhy {
    const width: nat        // RW_MGR_MEM_DQ_PER_WRITE_DQS
    const dms: nat          // RW_MGR_NUM_DM_PER_WRITE_GROUP
    const delayMax: nat     // IO_IO_OUT1_DELAY_MAX
    const eye: EyeMap       // write test of DQ bit i, at DQS - DQ
    const dmEye: EyeMap     // data-mask test of DM pin k, at DQS - DM
    const out1: array<int>  // IO_OUT1_DELAY registers: the DQ pins, DQS, the DM pins

    // This build: eight DQ and one DM to a group, 31 taps on every chain; DQS
    // starts at IO_DQS_OUT_RESERVE.
    constructor (eye: EyeMap, dmEye: EyeMap)
      ensures Valid() && fresh(out1) && this.eye == eye && this.dmEye == dmEye
      ensures width == 8 && dms == 1 && delayMax == 31 && Dqs() == 4
    {
      width, dms, delayMax := 8, 1, 31;
      this.eye, this.dmEye := eye, dmEye;
      out1 := new int[10](i => if i == 8 then 4 else 0);
    }

    ghost predicate Valid()
      reads out1
    {
      && 0 < width && out1.Length == width + 1 + dms
      && forall p :: 0 <= p < out1.Length ==> 0 <= out1[p] <= delayMax
    }

    function Dqs(): int
      requires width < out1.Length
      reads out1
    {
      out1[width]
    }

    function Illegal(): int {
      delayMax + 1
    }

    // The leftmost position of the DM axis.
    function Lowest(): int {
      0 - delayMax
    }

    ghost predicate EdgeArrays(left: array<int>, right: array<int>) {
      left.Length == right.Length == width && left != right && left != out1 && right != out1
    }

    // Every DQ pin is at delay d.
    ghost predicate DqAt(d: int)
      requires width < out1.Length
      reads out1
    {
      forall p :: 0 <= p < width ==> out1[p] == d
    }

    // The registers other than the DQ pins are as in old1.
    ghost predicate OnlyDqChanged(old1: seq<int>)
      reads out1
    {
      |old1| == out1.Length && forall p :: width <= p < out1.Length ==> out1[p] == old1[p]
    }

    method WriteTest() returns (bits: Bits)
      requires Valid()
      ensures |bits| == width
      ensures forall i :: 0 <= i < width ==> bits[i] == eye(i, Dqs() - out1[i])
    {
      bits := seq(width, i requires 0 <= i < width && width < out1.Length reads out1 => eye(i, Dqs() - out1[i]));
    }

    // The data-mask write test passes on all bits as the registers are now.
    predicate DmTestPasses()
      requires Valid()
      reads out1
    {
      && (forall p :: width < p < out1.Length ==> dmEye(p - width - 1, Dqs() - out1[p]))
      && DqPinsPass(out1[..width], Dqs())
    }

    predicate DqPinsPass(dq: seq<int>, dqs: int)
      requires |dq| == width
    {
      forall i :: 0 <= i < width ==> eye(i, dqs - dq[i])
    }

    predicate DmPinsPass(y: int) {
      forall k :: 0 <= k < dms ==> dmEye(k, y)
    }

    method ApplyGroupDqOut1Delay(delay: nat)
      requires Valid() && delay <= delayMax
      modifies out1
      ensures Valid() && DqAt(delay) && OnlyDqChanged(old(out1[..]))
    {
      for i := 0 to width
        invariant Valid() && OnlyDqChanged(old(out1[..]))
        invariant forall p :: 0 <= p < i ==> out1[p] == delay
      {
        out1[i] := delay;
      }
    }

    method TestWithDqDelay(d: nat) returns (bits: Bits)
      requires Valid() && d <= delayMax
      modifies out1
      ensures Valid() && OnlyDqChanged(old(out1[..]))
      ensures |bits| == width && Sampled(eye, Dqs() - d, bits)
    {
      ApplyGroupDqOut1Delay(d);
      bits := WriteTest();
    }

    method TestWithDqsDelay(d: nat) returns (bits: Bits)
      requires Valid() && d <= delayMax && DqAt(0)
      modifies out1
      ensures Valid() && DqAt(0) && out1[..] == old(out1[..])[width := d]
      ensures |bits| == width && Sampled(eye, d, bits)
    {
      out1[width] := d;
      bits := WriteTest();
    }

    method SearchLeft(left: array<int>, right: array<int>) returns (n: nat, passed: Bits)
      requires Valid() && EdgeArrays(left, right)
      modifies out1, left, right
      ensures Valid() && OnlyDqChanged(old(out1[..]))
      ensures 0 < n <= delayMax + 1
      ensures LeftState(eye, Dqs(), n, left[..], right[..], passed, Illegal())
      ensures n <= delayMax ==> AllFailAfterPassing(eye, width, Dqs() - n, Dqs() - n + 1, Dqs())
    {
      hide LeftState, RecordedLeft, AllFailAfterPassing, Sampled;
      var start := Dqs();
      MarkIllegal(left, right, Illegal());
      n, passed := 0, AllClear(width);
      LeftStateStart(eye, start, left[..], right[..], Illegal());
      while n <= delayMax
        invariant 0 <= n <= delayMax + 1 && |passed| == width
        invariant Valid() && OnlyDqChanged(old(out1[..]))
        invariant LeftState(eye, start, n, left[..], right[..], passed, Illegal())
      {
        var bits := TestWithDqDelay(n);
        if !AnySet(bits) && AllSet(Or(passed, bits)) {
          LeftStop(eye, start, n, left[..], right[..], passed, bits, Illegal());
          break;
        }
        ghost var left0, right0 := left[..], right[..];
        RecordLeftEdges(bits, n, left, right, Illegal());
        LeftStateStep(eye, start, n, left0, right0, passed, bits, left[..], right[..], Illegal());
        passed := Or(passed, bits);
        n := n + 1;
      }
    }

    // As on the read side, but the right search starts with every bit that has a
    // left edge.
    method ResetEdges(left: array<int>, right: array<int>) returns (sticky: Bits)
      requires EdgeArrays(left, right)
      modifies right
      ensures Reset(left[..], old(right[..]), right[..], Illegal()) && |sticky| == width
      ensures forall i :: 0 <= i < width ==> sticky[i] == (left[i] != Illegal())
    {
      sticky := AllClear(width);
      for i := width downto 0
        invariant |sticky| == width
        invariant forall k :: 0 <= k < i ==> right[k] == old(right[k])
        invariant forall k :: i <= k < width ==>
                    right[k] == if left[k] == Illegal() then Illegal() else old(right[k])
        invariant forall k :: 0 <= k < width - i ==> sticky[k] == (left[i + k] != Illegal())
      {
        if left[i] == Illegal() && right[i] != Illegal() {
          right[i] := Illegal();
        }
        sticky := ShiftLeft(sticky, 1);
        if left[i] != Illegal() {
          sticky := sticky[0 := true];
        }
      }
    }

    // What the source does when the very first setting of the right search stops
    // it: a bit with a left edge only is marginal.  (With a deterministic test
    // there is no such bit.)
    method MarkMarginal(left: array<int>, right: array<int>)
      requires EdgeArrays(left, right)
      modifies right
      ensures forall i :: 0 <= i < width ==>
                right[i] == if old(right[i]) == Illegal() && left[i] != Illegal() then -1 else old(right[i])
    {
      for i := 0 to width
        invariant forall k :: i <= k < width ==> right[k] == old(right[k])
        invariant forall k :: 0 <= k < i ==>
                    right[k] == if old(right[k]) == Illegal() && left[k] != Illegal() then -1 else old(right[k])
      {
        if right[i] == Illegal() && left[i] != Illegal() {
          right[i] := -1;
        }
      }
    }

    method SearchRight(sticky0: Bits, left: array<int>, right: array<int>, ghost lo: int)
      returns (ghost hi: int, ghost z: int)
      requires Valid() && EdgeArrays(left, right) && DqAt(0)
      requires Dqs() - delayMax <= lo <= Dqs() && |sticky0| == width
      requires RightState(eye, Dqs(), lo, 0, left[..], right[..], sticky0, Illegal())
      modifies out1, left, right
      ensures Valid() && DqAt(0) && out1[..] == old(out1[..])[width := Dqs()]
      ensures old(Dqs()) <= hi <= delayMax
      ensures AllEdges(eye, old(Dqs()), lo, hi, left[..], right[..], Illegal())
      ensures hi < delayMax ==> z <= hi + 1 && AllFailAfterPassing(eye, width, z, lo, z - 1)
    {
      hide RightState, RecordedRight, AllFailAfterPassing, Sampled, AllEdges;
      var start := Dqs();
      var sticky := sticky0;
      var n := 0;
      while n <= delayMax - start
        invariant 0 <= n <= delayMax - start + 1 && |sticky| == width
        invariant Valid() && DqAt(0) && out1[..] == old(out1[..])[width := Dqs()]
        invariant RightState(eye, start, lo, n, left[..], right[..], sticky, Illegal())
      {
        var bits := TestWithDqsDelay(n + start);
        if !AnySet(bits) && AllSet(Or(sticky, bits)) {
          RightStop(eye, start, lo, n, left[..], right[..], sticky, bits, Illegal());
          if n == 0 {
            NoMarginalBits(eye, start, lo, left[..], right[..], sticky, bits, Illegal());
            ghost var left0, right0 := left[..], right[..];
            MarkMarginal(left, right);
            assert left[..] == left0 && right[..] == right0;
          }
          break;
        }
        ghost var left0, right0 := left[..], right[..];
        RecordRightEdges(bits, n, left, right, Illegal());
        RightStateStep(eye, start, lo, n, left0, right0, sticky, bits, left[..], right[..], Illegal());
        sticky := Or(sticky, bits);
        n := n + 1;
      }
      RightSweptGivesEdges(eye, start, lo, n, left[..], right[..], sticky, Illegal());
      hi := Max(start, start + n - 1);
      z := start + n;
    }

    // Both searches.  DQS is left wherever the second one ended.
    method Search(left: array<int>, right: array<int>)
      requires Valid() && EdgeArrays(left, right)
      modifies out1, left, right
      ensures Valid() && DqAt(0)
      ensures AllMeasured(eye, old(Dqs()), old(Dqs()) - delayMax, delayMax, left[..], right[..], Illegal())
    {
      hide LeftState, RightState, Reset, AllFailAfterPassing, AllEdges, AllMeasured;
      var start := Dqs();
      var n, passed := SearchLeft(left, right);
      ApplyGroupDqOut1Delay(0);
      ghost var right0 := right[..];
      var sticky := ResetEdges(left, right);
      ResetGivesRightState(eye, start, n, left[..], right0, passed, right[..], sticky, Illegal());
      ghost var lo := start - n + 1;
      ghost var hi, z := SearchRight(sticky, left, right, lo);
      AllScansComplete(eye, start, lo, hi, start - delayMax, delayMax, z, left[..], right[..], Illegal());
    }

    // Bring the centres of all DQ windows to one level; DQS stays.
    method CentreDq(left: array<int>, right: array<int>, midMin: int)
      returns (dqMargin: int, dqsMargin: int)
      requires Valid() && EdgeArrays(left, right) && DqAt(0)
      modifies out1
      ensures Valid() && OnlyDqChanged(old(out1[..]))
      ensures forall i :: 0 <= i < width ==> Placed(out1[i], IdealDq(left[i] - right[i], midMin, 0), delayMax)
      ensures IsLeast(dqMargin, delayMax + 1, LeftMargins(left[..], out1[..width], 0))
      ensures IsLeast(dqsMargin, delayMax + 1, RightMargins(right[..], out1[..width], 0))
    {
      hide IdealDq, IsLeast, LeastSoFar, LeftMargins, RightMargins;
      LeastOfNone(0, out1[..], left[..], right[..], 0, delayMax + 1);
      dqMargin, dqsMargin := delayMax + 1, delayMax + 1;
      for i := 0 to width
        invariant Valid() && OnlyDqChanged(old(out1[..]))
        invariant forall k :: i <= k < width ==> out1[k] == 0
        invariant forall k :: 0 <= k < i ==> Placed(out1[k], IdealDq(left[k] - right[k], midMin, 0), delayMax)
        invariant LeastSoFar(0, i, out1[..], left[..], right[..], 0, delayMax + 1, dqMargin, dqsMargin)
      {
        var shift := IdealDq(left[i] - right[i], midMin, 0);
        if shift + out1[i] > delayMax {
          shift := delayMax - out1[i];
        } else if shift + out1[i] < 0 {
          shift := -out1[i];
        }
        LeastSoFarNext(0, i, out1[..], shift, left[..], right[..], 0, delayMax + 1, dqMargin, dqsMargin);
        out1[i] := out1[i] + shift;
        dqMargin := Min(dqMargin, left[i] - shift);
        dqsMargin := Min(dqsMargin, right[i] + shift);
      }
      LeastOfAll(0, out1[..], left[..], right[..], 0, delayMax + 1, dqMargin, dqsMargin);
      assert out1[..][..width] == out1[..width];
    }

    // The data-mask test as a function of the axis: x <= 0 is a DM delay of -x,
    // x >= 0 is DQS delayed by another x, with the DQ pins at dq.
    function DmAxis(dq: seq<int>, dqs: int): int -> bool
      requires |dq| == width
    {
      x => DmPinsPass(dqs + x) && DqPinsPass(dq, dqs + Max(x, 0))
    }

    // scc_mgr_apply_group_dm_out1_delay
    method ApplyGroupDmOut1Delay(d: nat)
      requires Valid() && d <= delayMax
      modifies out1
      ensures Valid()
      ensures forall p :: 0 <= p <= width ==> out1[p] == old(out1[p])
      ensures forall p :: width < p < out1.Length ==> out1[p] == d
    {
      for p := width + 1 to out1.Length
        invariant Valid()
        invariant forall q :: 0 <= q <= width ==> out1[q] == old(out1[q])
        invariant forall q :: width < q < p ==> out1[q] == d
      {
        out1[p] := d;
      }
    }

    lemma DmAxisIsTest(dq: seq<int>, dqs: int, x: int)
      requires Valid() && dq == out1[..width] && Dqs() == dqs + Max(x, 0)
      requires forall p :: width < p < out1.Length ==> out1[p] == Max(-x, 0)
      ensures DmTestPasses() == DmAxis(dq, dqs)(x)
    {
      if DmTestPasses() {
        forall k: nat {:trigger dmEye(k, dqs + x)} | k < dms
          ensures dmEye(k, dqs + x)
        {
          var p := width + 1 + k;
          assert dmEye(p - width - 1, Dqs() - out1[p]);
        }
      }
    }

    // The DQ pins and DQS are as in old1.
    ghost predicate OnlyDmChanged(old1: seq<int>)
      reads out1
    {
      |old1| == out1.Length && forall p :: 0 <= p <= width && p < out1.Length ==> out1[p] == old1[p]
    }

    // The first of the two DM sweeps: DM shifts, from the end of the chain to 0.
    method SweepDm() returns (s: DmWindow.State)
      requires Valid()
      modifies out1
      ensures Valid() && OnlyDmChanged(old(out1[..]))
      ensures DmWindow.Knows(DmAxis(old(out1[..width]), old(Dqs())), Lowest(), 0, s, Illegal())
    {
      hide DmWindow.Knows, DmWindow.Step;
      s := DmWindow.Start(Illegal());
      ghost var pass := DmAxis(out1[..width], Dqs());
      DmWindow.StartKnows(pass, Lowest(), Illegal());
      for d := delayMax + 1 downto 0
        invariant Valid() && OnlyDmChanged(old(out1[..]))
        invariant DmWindow.Knows(pass, Lowest(), 0 - d, s, Illegal())
      {
        ApplyGroupDmOut1Delay(d);
        assert out1[..width] == old(out1[..width]);
        DmAxisIsTest(out1[..width], Dqs(), 0 - d);
        DmWindow.StepKnows(pass, Lowest(), 0 - d - 1, s, Illegal());
        s := DmWindow.Step(s, 0 - d, DmTestPasses(), Illegal());
      }
    }

    // The second: DQS shifts, up from where the DQS is, with DM at 0.
    method SweepDqs(s0: DmWindow.State) returns (s: DmWindow.State)
      requires Valid() && forall p :: width < p < out1.Length ==> out1[p] == 0
      requires DmWindow.Knows(DmAxis(out1[..width], Dqs()), Lowest(), 0, s0, Illegal())
      modifies out1
      ensures Valid() && out1[..] == old(out1[..])[width := Dqs()]
      ensures DmWindow.IsBest(DmAxis(old(out1[..width]), old(Dqs())), Lowest(), delayMax - old(Dqs()),
                              s.bgnBest, s.endBest, s.win)
      ensures s.win == 0 ==> s.bgnBest == s.endBest == Illegal()
    {
      hide DmWindow.IsBest, DmWindow.IsCurrent, DmAxis;
      s := s0;
      var dqs := Dqs();
      ghost var dq := out1[..width];
      ghost var pass := DmAxis(dq, dqs);
      var d := 0;
      while d <= delayMax - dqs
        invariant 0 <= d <= delayMax - dqs + 1
        invariant Valid() && out1[..] == old(out1[..])[width := Dqs()]
        invariant DmWindow.Knows(pass, Lowest(), Max(0, d - 1), s, Illegal())
      {
        out1[width] := d + dqs;
        assert out1[..width] == dq;
        DmAxisIsTest(dq, dqs, d);
        var ok := DmTestPasses();
        if d == 0 {
          DmWindow.StepAgain(pass, Lowest(), 0, s, Illegal());
        } else {
          DmWindow.StepKnows(pass, Lowest(), d - 1, s, Illegal());
        }
        s := DmWindow.Step(s, d, ok, Illegal());
        if !ok && s.win - 1 > delayMax - dqs - d {
          DmWindow.EarlyExitIsBest(pass, Lowest(), d, delayMax - dqs, s.bgnBest, s.endBest, s.win);
          return;
        }
        d := d + 1;
      }
    }

    // The DM search.  Between its sweeps a run that does not reach 0 is dropped.
    method SearchDm() returns (s: DmWindow.State)
      requires Valid()
      modifies out1
      ensures Valid() && (forall p :: 0 <= p <= width ==> out1[p] == old(out1[p]))
      ensures DmWindow.IsBest(DmAxis(old(out1[..width]), old(Dqs())), Lowest(), delayMax - old(Dqs()),
                              s.bgnBest, s.endBest, s.win)
      ensures s.win == 0 ==> s.bgnBest == s.endBest == Illegal()
    {
      hide DmWindow.IsBest, DmWindow.IsRun, DmAxis;
      var dqs := Dqs();
      ghost var dq := out1[..width];
      s := SweepDm();
      ApplyGroupDmOut1Delay(0);
      if s.endCurr != 0 {
        s := s.(bgnCurr := Illegal(), endCurr := Illegal());
      }
      assert out1[..width] == dq;
      s := SweepDqs(s);
      out1[width] := dqs;
    }

    // Move DM to the centre of its window, as far as delaying it can.
    method CentreDm() returns (s: DmWindow.State, dmMargin: int)
      requires Valid()
      modifies out1
      ensures Valid() && (forall p :: 0 <= p <= width ==> out1[p] == old(out1[p]))
      ensures DmSettled(s)
      ensures dmMargin == DmMargin(s) && (dmMargin >= 0 <==> DmInside(s))
      ensures dmMargin >= 0 ==> DmTestPasses()
    {
      hide DmWindow.AllPass, DmAxis, DmWindow.DmTaps;
      var dqs := Dqs();
      ghost var dq := out1[..width];
      s := SearchDm();
      var mid := DmWindow.DmTaps(s.bgnBest, s.endBest);
      dmMargin := if s.win == 0 then -1 else -s.bgnBest - mid;
      DmTapsInChain(s);
      ApplyGroupDmOut1Delay(mid);
      assert out1[..width] == dq;
      if s.win > 0 {
        DmWindow.DmMarginMeansInside(s.bgnBest, s.endBest);
        if dmMargin >= 0 {
          DmAxisIsTest(dq, dqs, 0 - mid);
          DmWindow.RunPasses(DmAxis(dq, dqs), Lowest(), delayMax - dqs, s.bgnBest, s.endBest, 0 - mid);
        }
      }
    }

    lemma DmTapsInChain(s: DmWindow.State)
      requires Valid()
      requires s.win > 0 ==> Lowest() <= s.bgnBest <= s.endBest
      requires s.win <= 0 ==> s.bgnBest == s.endBest == Illegal()
      ensures DmWindow.DmTaps(s.bgnBest, s.endBest) <= delayMax
    {
    }

    // s holds the left-most longest run of passing settings of the DM axis, given
    // where DQ and DQS are, and the DM pins are at the delay chosen for it.
    ghost predicate DmSettled(s: DmWindow.State)
      requires Valid()
      reads out1
    {
      && DmWindow.IsBest(DmAxis(out1[..width], Dqs()), Lowest(), delayMax - Dqs(), s.bgnBest, s.endBest, s.win)
      && forall p :: width < p < out1.Length ==> out1[p] == DmWindow.DmTaps(s.bgnBest, s.endBest)
    }

    // How far the leftmost position of the DM window lies beyond the delay chosen, or -1
    // if there is no window.
    function DmMargin(s: DmWindow.State): int {
      if s.win == 0 then -1 else -s.bgnBest - DmWindow.DmTaps(s.bgnBest, s.endBest)
    }

    // There is a DM window and the delay chosen is in it.
    predicate DmInside(s: DmWindow.State) {
      s.win > 0 && s.bgnBest <= 0 - DmWindow.DmTaps(s.bgnBest, s.endBest) <= s.endBest
    }

    ghost predicate HasWindow(i: nat, start: int) {
      Seen(eye, i, start - delayMax, delayMax)
    }

    // Every DQ has its own window centred on the DQS, as far as its chain allows.
    ghost predicate Settled(report: Report)
      requires Valid() && report.Margins? && |report.left| == |report.right| == width
      reads out1
    {
      && report.minIndex < width
      && var midMin := report.left[report.minIndex] - report.right[report.minIndex];
      && (forall i :: 0 <= i < width ==> midMin <= report.left[i] - report.right[i])
      && forall i :: 0 <= i < width ==>
           Placed(out1[i], IdealDq(report.left[i] - report.right[i], midMin, 0), delayMax)
    }

    ghost predicate InsideWindows(report: Report)
      requires Valid() && report.Margins? && |report.left| == |report.right| == width
      reads out1
    {
      forall i :: 0 <= i < width ==> report.left[i] - out1[i] >= 0 && report.right[i] + out1[i] >= 0
    }

    // The margins reported are the least of those of the bits, and that of the DM.
    ghost predicate MarginsKept(report: Report)
      requires Valid() && report.Margins? && |report.left| == |report.right| == width
      reads out1
    {
      && IsLeast(report.dqMargin, delayMax + 1, LeftMargins(report.left, out1[..width], 0))
      && IsLeast(report.dqsMargin, delayMax + 1, RightMargins(report.right, out1[..width], 0))
      && report.dmMargin == DmMargin(report.dm)
    }

    // Both least margins are not negative exactly when every bit sits inside its edges.
    lemma LeastMeansInside(report: Report)
      requires Valid() && report.Margins? && |report.left| == |report.right| == width
      requires MarginsKept(report)
      ensures report.dqMargin >= 0 && report.dqsMargin >= 0 <==> InsideWindows(report)
    {
      var ls, rs := LeftMargins(report.left, out1[..width], 0), RightMargins(report.right, out1[..width], 0);
      forall i | 0 <= i < width
        ensures ls[i] == report.left[i] - out1[i] && rs[i] == report.right[i] + out1[i]
      {
        assert out1[..width][i] == out1[i];
      }
    }

    // With DQS left in place no DQ delay can be improved, and bits whose chain is long
    // enough have their margins balanced to within one tap.
    lemma SettledIsBest(report: Report, i: nat, dq: int)
      requires Valid() && report.Margins? && |report.left| == |report.right| == width
      requires Settled(report) && i < width && 0 <= dq <= delayMax
      ensures var left, right := report.left[i], report.right[i];
              var ideal := IdealDq(left - right, report.left[report.minIndex] - report.right[report.minIndex], 0);
              && SmallestMargin(left, right, -dq) <= SmallestMargin(left, right, -out1[i])
              && (0 <= ideal <= delayMax ==> Centred(left, right, -out1[i]))
    {
      hide IdealDq, SmallestMargin, Centred;
      var midMin := report.left[report.minIndex] - report.right[report.minIndex];
      BestDq(report.left[i], report.right[i], midMin, 0, delayMax, out1[i], dq);
      IdealIsCentred(report.left[i], report.right[i], midMin, 0);
    }

    // rw_mgr_mem_calibrate_writes_center
    method WritesCenter() returns (ok: bool, report: Report)
      requires Valid()
      modifies out1
      ensures Valid()
      ensures report.NoWindow? <==> exists i :: 0 <= i < width && !HasWindow(i, old(Dqs()))
      ensures report.NoWindow? ==>
                && !ok && report.bit < width && !HasWindow(report.bit, old(Dqs()))
                && (forall i :: 0 <= i < report.bit ==> HasWindow(i, old(Dqs()))) && DqAt(0)
      ensures report.Margins? ==>
                && |report.left| == |report.right| == width && Dqs() == old(Dqs())
                && AllMeasured(eye, Dqs(), Dqs() - delayMax, delayMax, report.left, report.right, Illegal())
                && Settled(report) && DmSettled(report.dm) && MarginsKept(report)
                && (ok <==> InsideWindows(report) && DmInside(report.dm))
      ensures ok ==> DmTestPasses()
    {
      hide AllMeasured, Seen, Settled, MarginsKept, InsideWindows, DmSettled, DmInside, DmTestPasses;
      var start := Dqs();
      var left, right := new int[width], new int[width];
      Search(left, right);
      var bit := FirstWithoutWindow(left, right, Illegal());
      WindowsFromEdges(eye, start, start - delayMax, delayMax, left[..], right[..], Illegal(), bit);
      assert forall k :: 0 <= k < bit ==> HasWindow(k, start);
      if bit < width {
        assert !HasWindow(bit, start);
        return false, NoWindow(bit);
      }
      ok, report := Centre(start, left, right);
    }

    // Move DQ, DQS and DM once the windows are known.
    method Centre(start: nat, left: array<int>, right: array<int>) returns (ok: bool, report: Report)
      requires Valid() && EdgeArrays(left, right) && DqAt(0) && start <= delayMax
      modifies out1
      ensures Valid() && report.Margins? && Dqs() == start
      ensures report.left == left[..] && report.right == right[..]
      ensures Settled(report) && DmSettled(report.dm) && MarginsKept(report)
      ensures ok <==> InsideWindows(report) && DmInside(report.dm)
      ensures ok ==> DmTestPasses()
    {
      hide DmSettled, DmInside, DmMargin, DmTestPasses, IdealDq, Placed, IsLeast, InsideWindows;
      var midMin, minIndex := FindMinIndex(left, right);
      var dqMargin, dqsMargin := CentreDq(left, right, midMin);
      out1[width] := start;
      ghost var dq := out1[..width];
      var dm, dmMargin := CentreDm();
      assert out1[..width] == dq;
      ok := dqMargin >= 0 && dqsMargin >= 0 && dmMargin >= 0;
      report := Margins(left[..], right[..], minIndex, dm, dqMargin, dqsMargin, dmMargin);
      LeastMeansInside(report);
    }
  }
}
