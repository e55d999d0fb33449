// rw_mgr_mem_calibrate_vfifo_center: per-bit deskew of one read group, with the
// SCC delay registers as state and the read test as a deterministic eye.

module ReadDeskew {
  import opened CArithmetic
  import opened BitVectors
  import opened Deskew

  // What the routine reports for a group.
  datatype Report =
    | NoWindow(bit: nat)
    | Margins(left: seq<int>, right: seq<int>, minIndex: nat, dqMargin: int, dqsMargin: int)

  class ReadPhy {
    const width: nat          // RW_MGR_MEM_DQ_PER_READ_DQS
    const dqMax: nat          // IO_IO_IN_DELAY_MAX
    const dqsMax: nat         // IO_DQS_IN_DELAY_MAX
    const eye: EyeMap         // does the test pass on bit i at this DQS - DQ distance?
    const dqIn: array<int>    // IO_IN_DELAY registers, by pin
    const dqsIn: array<int>   // DQS_IN_DELAY registers, by read group

    // This build: eight bits to a group, 31 taps on every chain.
    constructor (eye: EyeMap, pins: nat, groups: nat)
      ensures Valid() && fresh(dqIn) && fresh(dqsIn)
      ensures width == 8 && dqMax == 31 && dqsMax == 31 && this.eye == eye
      ensures dqIn.Length == pins && dqsIn.Length == groups
      ensures forall p :: 0 <= p < pins ==> dqIn[p] == 0
    {
      width, dqMax, dqsMax := 8, 31, 31;
      this.eye := eye;
      var dq := new int[pins](_ => 0);
      var dqs := new int[groups](_ => 0);
      dqIn, dqsIn := dq, dqs;
    }

    // Every delay register is within its chain.
    ghost predicate Valid()
      reads dqIn, dqsIn
    {
      && 0 < width && dqsMax <= dqMax && dqIn != dqsIn
      && (forall p :: 0 <= p < dqIn.Length ==> 0 <= dqIn[p] <= dqMax)
      && (forall g :: 0 <= g < dqsIn.Length ==> 0 <= dqsIn[g] <= dqsMax)
    }

    ghost predicate InRange(group: nat, bgn: nat) {
      group < dqsIn.Length && bgn + width <= dqIn.Length
    }

    // Where bit i of the group is sampled now.
    function Position(group: nat, bgn: nat, i: nat): int
      requires InRange(group, bgn) && i < width
      reads dqIn, dqsIn
    {
      dqsIn[group] - dqIn[bgn + i]
    }

    function Illegal(): int {
      dqMax + 1
    }

    method ReadTest(group: nat, bgn: nat) returns (bits: Bits)
      requires InRange(group, bgn)
      ensures |bits| == width
      ensures forall i :: 0 <= i < width ==> bits[i] == eye(i, Position(group, bgn, i))
    {
      bits := seq(width, i requires 0 <= i < width reads dqIn, dqsIn => eye(i, Position(group, bgn, i)));
    }

    method ApplyGroupDqInDelay(bgn: nat, delay: nat)
      requires bgn + width <= dqIn.Length
      modifies dqIn
      ensures forall p :: 0 <= p < dqIn.Length ==>
                dqIn[p] == if bgn <= p < bgn + width then delay else old(dqIn[p])
    {
      for i := 0 to width
        invariant forall p :: 0 <= p < dqIn.Length ==>
                    dqIn[p] == if bgn <= p < bgn + i then delay else old(dqIn[p])
      {
        dqIn[bgn + i] := delay;
      }
    }

    // One setting of the left search: every DQ of the group delayed by d.
    method TestWithDqDelay(group: nat, bgn: nat, d: nat) returns (bits: Bits)
      requires Valid() && InRange(group, bgn) && d <= dqMax
      modifies dqIn
      ensures Valid() && |bits| == width && Sampled(eye, dqsIn[group] - d, bits)
      ensures forall p :: 0 <= p < dqIn.Length && !(bgn <= p < bgn + width) ==> dqIn[p] == old(dqIn[p])
    {
      ApplyGroupDqInDelay(bgn, d);
      bits := ReadTest(group, bgn);
    }

    // One setting of the right search: DQS delayed by d, every DQ by 0.
    method TestWithDqsDelay(group: nat, bgn: nat, d: nat) returns (bits: Bits)
      requires Valid() && InRange(group, bgn) && d <= dqsMax
      requires forall p :: bgn <= p < bgn + width ==> dqIn[p] == 0
      modifies dqsIn
      ensures Valid() && |bits| == width && Sampled(eye, d, bits)
      ensures forall g :: 0 <= g < dqsIn.Length && g != group ==> dqsIn[g] == old(dqsIn[g])
    {
      dqsIn[group] := d;
      bits := ReadTest(group, bgn);
    }

    // The edge arrays of a group.
    ghost predicate EdgeArrays(left: array<int>, right: array<int>) {
      left.Length == right.Length == width && left != right && left !in {dqIn, dqsIn} && right !in {dqIn, dqsIn}
    }

    // The search with DQ delay.  n settings were recorded; if n is not the whole
    // chain, setting n failed on every bit after every bit had passed.
    method SearchLeft(group: nat, bgn: nat, left: array<int>, right: array<int>)
      returns (n: nat, passed: Bits)
      requires Valid() && InRange(group, bgn) && EdgeArrays(left, right)
      modifies dqIn, left, right
      ensures Valid()
      ensures forall p :: 0 <= p < dqIn.Length && !(bgn <= p < bgn + width) ==> dqIn[p] == old(dqIn[p])
      ensures 0 < n <= dqMax + 1
      ensures LeftState(eye, dqsIn[group], n, left[..], right[..], passed, Illegal())
      ensures n <= dqMax ==>
                AllFailAfterPassing(eye, width, dqsIn[group] - n, dqsIn[group] - n + 1, dqsIn[group])
    {
      hide LeftState, RecordedLeft, AllFailAfterPassing, Sampled;
      var start := dqsIn[group];
      MarkIllegal(left, right, Illegal());
      n, passed := 0, AllClear(width);
      LeftStateStart(eye, start, left[..], right[..], Illegal());
      while n <= dqMax
        invariant 0 <= n <= dqMax + 1 && Valid() && |passed| == width
        invariant forall p :: 0 <= p < dqIn.Length && !(bgn <= p < bgn + width) ==> dqIn[p] == old(dqIn[p])
        invariant LeftState(eye, start, n, left[..], right[..], passed, Illegal())
      {
        var bits := TestWithDqDelay(group, bgn, n);
        if !AnySet(bits) && AllSet(Or(passed, bits)) {
          LeftStop(eye, start, n, left[..], right[..], passed, bits, Illegal());
          break;
        }
        ghost var left0, right0 := left[..], right[..];
        RecordLeftEdges(bits, n, left, right, Illegal());
        LeftStateStep(eye, start, n, left0, right0, passed, bits, left[..], right[..], Illegal());
        passed := Or(passed, bits);
        n := n + 1;
      }
    }

    // Drop right edges that have no left edge, and start the right search with
    // the bits whose window is complete.
    method ResetEdges(left: array<int>, right: array<int>) returns (sticky: Bits)
      requires EdgeArrays(left, right)
      modifies right
      ensures Reset(left[..], old(right[..]), right[..], Illegal()) && |sticky| == width
      ensures forall i :: 0 <= i < width ==>
                sticky[i] == (left[i] != Illegal() && right[i] != Illegal())
    {
      sticky := AllClear(width);
      for i := width downto 0
        invariant |sticky| == width
        invariant forall k :: 0 <= k < i ==> right[k] == old(right[k])
        invariant forall k :: i <= k < width ==>
                    right[k] == if left[k] == Illegal() then Illegal() else old(right[k])
        invariant forall k :: 0 <= k < width - i ==>
                    sticky[k] == (left[i + k] != Illegal() && right[i + k] != Illegal())
      {
        if left[i] == Illegal() && right[i] != Illegal() {
          right[i] := Illegal();
        }
        sticky := ShiftLeft(sticky, 1);
        if left[i] != Illegal() && right[i] != Illegal() {
          sticky := sticky[0 := true];
        }
      }
    }

    // The search with DQS delay.  It covers lo..hi; z is the setting at which it
    // stopped if that is short of the chain.
    method SearchRight(group: nat, bgn: nat, sticky0: Bits, left: array<int>, right: array<int>,
                       ghost lo: int)
      returns (ghost hi: int, ghost z: int)
      requires Valid() && InRange(group, bgn) && EdgeArrays(left, right)
      requires dqsIn[group] - dqMax <= lo <= dqsIn[group] && |sticky0| == width
      requires forall p :: bgn <= p < bgn + width ==> dqIn[p] == 0
      requires RightState(eye, dqsIn[group], lo, 0, left[..], right[..], sticky0, Illegal())
      modifies dqsIn, left, right
      ensures Valid()
      ensures forall g :: 0 <= g < dqsIn.Length && g != group ==> dqsIn[g] == old(dqsIn[g])
      ensures old(dqsIn[group]) <= hi <= dqsMax
      ensures AllEdges(eye, old(dqsIn[group]), lo, hi, left[..], right[..], Illegal())
      ensures hi < dqsMax ==> z <= hi + 1 && AllFailAfterPassing(eye, width, z, lo, z - 1)
    {
      hide RightState, RecordedRight, AllFailAfterPassing, Sampled, AllEdges;
      var start := dqsIn[group];
      var sticky := sticky0;
      var n := 0;
      while n <= dqsMax - start
        invariant 0 <= n <= dqsMax - start + 1 && Valid() && |sticky| == width
        invariant forall g :: 0 <= g < dqsIn.Length && g != group ==> dqsIn[g] == old(dqsIn[g])
        invariant RightState(eye, start, lo, n, left[..], right[..], sticky, Illegal())
      {
        var bits := TestWithDqsDelay(group, bgn, n + start);
        if !AnySet(bits) && AllSet(Or(sticky, bits)) {
          RightStop(eye, start, lo, n, left[..], right[..], sticky, bits, Illegal());
          break;
        }
        ghost var left0, right0 := left[..], right[..];
        RecordRightEdges(bits, n, left, right, Illegal());
        RightStateStep(eye, start, lo, n, left0, right0, sticky, bits, left[..], right[..], Illegal());
        sticky := Or(sticky, bits);
        n := n + 1;
      }
      RightSweptGivesEdges(eye, start, lo, n, left[..], right[..], sticky, Illegal());
      hi := Max(start, start + n - 1);
      z := start + n;
    }

    // Bit i passes at some setting the searches can reach.
    ghost predicate HasWindow(i: nat, start: int) {
      Seen(eye, i, start - dqMax, dqsMax)
    }

    // Both searches.  DQS is left wherever the second one ended.
    method Search(group: nat, bgn: nat, left: array<int>, right: array<int>)
      requires Valid() && InRange(group, bgn) && EdgeArrays(left, right)
      modifies dqIn, dqsIn, left, right
      ensures Valid()
      ensures forall p :: 0 <= p < dqIn.Length ==>
                dqIn[p] == if bgn <= p < bgn + width then 0 else old(dqIn[p])
      ensures forall g :: 0 <= g < dqsIn.Length && g != group ==> dqsIn[g] == old(dqsIn[g])
      ensures AllMeasured(eye, old(dqsIn[group]), old(dqsIn[group]) - dqMax, dqsMax,
                          left[..], right[..], Illegal())
    {
      hide LeftState, RightState, Reset, AllFailAfterPassing, AllEdges, AllMeasured;
      var start := dqsIn[group];
      var n, passed := SearchLeft(group, bgn, left, right);
      ApplyGroupDqInDelay(bgn, 0);
      ghost var right0 := right[..];
      var sticky := ResetEdges(left, right);
      ResetGivesRightState(eye, start, n, left[..], right0, passed, right[..], sticky, Illegal());
      ghost var lo := start - n + 1;
      ghost var hi, z := SearchRight(group, bgn, sticky, left, right, lo);
      AllScansComplete(eye, start, lo, hi, start - dqMax, dqsMax, z, left[..], right[..], Illegal());
    }

    // The delay of a pin that was at 0, where other is what the upper clamp reads.
    function ClampedDelay(ideal: int, other: int): int {
      if ideal > dqMax then dqMax - other else if ideal < 0 then 0 else ideal
    }

    // Move one DQ pin p, bit i of its group, to its ideal delay.  The upper clamp
    // reads the register of pin i where everything else reads pin p.
    method CentreBit(p: nat, i: nat, ideal: int) returns (shift: int)
      requires Valid() && i <= p < dqIn.Length && dqIn[p] == 0
      modifies dqIn
      ensures forall q :: 0 <= q < dqIn.Length && q != p ==> dqIn[q] == old(dqIn[q])
      ensures dqIn[p] == shift == ClampedDelay(ideal, old(dqIn[i]))
      ensures 0 <= shift <= dqMax && PlacedByLoop(shift, ideal, p - i)
    {
      shift := ideal;
      if shift + dqIn[p] > dqMax {
        shift := dqMax - dqIn[i];
      } else if shift + dqIn[p] < 0 {
        shift := -dqIn[p];
      }
      dqIn[p] := dqIn[p] + shift;
    }

    // Where exactly the first n pins of a group are put: the register the upper clamp
    // reads is that of pin i, which for a group that does not begin at pin 0 is one of
    // another group or, already moved, of this one.
    ghost predicate ClampedUpTo(bgn: nat, n: nat, dq0: seq<int>, dq: seq<int>, left: seq<int>, right: seq<int>,
                                midMin: int, dqsMove: int)
    {
      && n <= |left| == |right| && |dq0| == |dq| && bgn + n <= |dq|
      && forall i :: 0 <= i < n ==>
           dq[bgn + i] == ClampedDelay(IdealDq(left[i] - right[i], midMin, dqsMove),
                                       if 0 < bgn <= i then dq[i] else dq0[i])
    }

    lemma NoneClamped(bgn: nat, dq: seq<int>, left: seq<int>, right: seq<int>, midMin: int, dqsMove: int)
      requires |left| == |right| && bgn <= |dq|
      ensures ClampedUpTo(bgn, 0, dq, dq, left, right, midMin, dqsMove)
    {
    }

    lemma ClampedNext(bgn: nat, n: nat, dq0: seq<int>, dq: seq<int>, left: seq<int>, right: seq<int>,
                      midMin: int, dqsMove: int)
      requires ClampedUpTo(bgn, n, dq0, dq, left, right, midMin, dqsMove) && n < |left| && bgn + n < |dq|
      requires forall q :: 0 <= q < |dq| && !(bgn <= q < bgn + n) ==> dq[q] == dq0[q]
      ensures var shift := ClampedDelay(IdealDq(left[n] - right[n], midMin, dqsMove), dq[n]);
              ClampedUpTo(bgn, n + 1, dq0, dq[bgn + n := shift], left, right, midMin, dqsMove)
    {
      hide IdealDq, ClampedDelay;
    }

    lemma ClampedIsPlaced(bgn: nat, dq0: seq<int>, dq: seq<int>, left: seq<int>, right: seq<int>,
                          midMin: int, dqsMove: int)
      requires ClampedUpTo(bgn, |left|, dq0, dq, left, right, midMin, dqsMove)
      requires forall p :: 0 <= p < |dq| ==> 0 <= dq[p] <= dqMax && 0 <= dq0[p] <= dqMax
      requires bgn == 0 ==> forall i :: 0 <= i < |left| ==> dq0[i] == 0
      ensures forall p :: bgn <= p < bgn + |left| ==>
                PlacedByLoop(dq[p], IdealDq(left[p - bgn] - right[p - bgn], midMin, dqsMove), bgn)
    {
      hide IdealDq;
      forall p | bgn <= p < bgn + |left|
        ensures PlacedByLoop(dq[p], IdealDq(left[p - bgn] - right[p - bgn], midMin, dqsMove), bgn)
      {
        assert dq[bgn + (p - bgn)] == dq[p];
      }
    }

    // Both least margins are not negative exactly when every bit sits inside its edges.
    lemma LeastMeansInside(bgn: nat, dq: seq<int>, left: seq<int>, right: seq<int>, start: int, newDqs: int,
                           dqMargin: int, dqsMargin: int)
      requires |left| == |right| && bgn + |left| <= |dq|
      requires IsLeast(dqMargin, dqMax + 1, LeftMargins(left, dq[bgn..bgn + |left|], start - newDqs))
      requires IsLeast(dqsMargin, dqMax + 1, RightMargins(right, dq[bgn..bgn + |left|], start - newDqs))
      ensures dqMargin >= 0 && dqsMargin >= 0
              <==> forall p :: bgn <= p < bgn + |left| ==>
                     start - left[p - bgn] <= newDqs - dq[p] <= start + right[p - bgn]
    {
      var ls := LeftMargins(left, dq[bgn..bgn + |left|], start - newDqs);
      var rs := RightMargins(right, dq[bgn..bgn + |left|], start - newDqs);
      forall p | bgn <= p < bgn + |left|
        ensures start - left[p - bgn] <= newDqs - dq[p] <= start + right[p - bgn]
                <==> ls[p - bgn] >= 0 && rs[p - bgn] >= 0
      {
        assert dq[bgn..bgn + |left|][p - bgn] == dq[p];
      }
      if dqMargin < 0 {
        var i :| 0 <= i < |ls| && ls[i] == dqMargin;
        assert bgn <= bgn + i && ls[(bgn + i) - bgn] < 0;
      } else if dqsMargin < 0 {
        var i :| 0 <= i < |rs| && rs[i] == dqsMargin;
        assert bgn <= bgn + i && rs[(bgn + i) - bgn] < 0;
      }
    }

    // Bring the centres of all DQ windows to one level, DQS having moved by
    // -dqsMove.
    method CentreDq(bgn: nat, left: array<int>, right: array<int>, midMin: int, dqsMove: int)
      returns (dqMargin: int, dqsMargin: int)
      requires Valid() && bgn + width <= dqIn.Length && EdgeArrays(left, right)
      requires forall p :: bgn <= p < bgn + width ==> dqIn[p] == 0
      modifies dqIn
      ensures Valid()
      ensures forall p :: 0 <= p < dqIn.Length && !(bgn <= p < bgn + width) ==> dqIn[p] == old(dqIn[p])
      ensures forall p :: bgn <= p < bgn + width ==>
                PlacedByLoop(dqIn[p], IdealDq(left[p - bgn] - right[p - bgn], midMin, dqsMove), bgn)
      ensures ClampedUpTo(bgn, width, old(dqIn[..]), dqIn[..], left[..], right[..], midMin, dqsMove)
      ensures IsLeast(dqMargin, dqMax + 1, LeftMargins(left[..], dqIn[bgn..bgn + width], dqsMove))
      ensures IsLeast(dqsMargin, dqMax + 1, RightMargins(right[..], dqIn[bgn..bgn + width], dqsMove))
    {
      hide PlacedByLoop, IdealDq, ClampedUpTo, IsLeast, LeastSoFar, LeftMargins, RightMargins;
      LeastOfNone(bgn, dqIn[..], left[..], right[..], dqsMove, dqMax + 1);
      NoneClamped(bgn, dqIn[..], left[..], right[..], midMin, dqsMove);
      dqMargin, dqsMargin := dqMax + 1, dqMax + 1;
      for i := 0 to width
        invariant Valid()
        invariant ClampedUpTo(bgn, i, old(dqIn[..]), dqIn[..], left[..], right[..], midMin, dqsMove)
        invariant forall p :: 0 <= p < dqIn.Length && !(bgn <= p < bgn + i) ==> dqIn[p] == old(dqIn[p])
        invariant LeastSoFar(bgn, i, dqIn[..], left[..], right[..], dqsMove, dqMax + 1, dqMargin, dqsMargin)
      {
        ClampedNext(bgn, i, old(dqIn[..]), dqIn[..], left[..], right[..], midMin, dqsMove);
        ghost var before := dqIn[..];
        var shift := CentreBit(bgn + i, i, IdealDq(left[i] - right[i], midMin, dqsMove));
        assert dqIn[..] == before[bgn + i := shift];
        LeastSoFarNext(bgn, i, before, shift, left[..], right[..], dqsMove, dqMax + 1, dqMargin, dqsMargin);
        dqMargin := Min(dqMargin, left[i] - shift - dqsMove);
        dqsMargin := Min(dqsMargin, right[i] + shift + dqsMove);
      }
      ClampedIsPlaced(bgn, old(dqIn[..]), dqIn[..], left[..], right[..], midMin, dqsMove);
      LeastOfAll(bgn, dqIn[..], left[..], right[..], dqsMove, dqMax + 1, dqMargin, dqsMargin);
      assert dqIn[..][bgn..bgn + width] == dqIn[bgn..bgn + width];
    }

    // Move DQS and every DQ once the windows are known.
    method Centre(group: nat, bgn: nat, start: int, left: array<int>, right: array<int>)
      returns (ok: bool, report: Report)
      requires Valid() && InRange(group, bgn) && EdgeArrays(left, right)
      requires forall p :: bgn <= p < bgn + width ==> dqIn[p] == 0
      modifies dqIn, dqsIn
      ensures Valid()
      ensures forall p :: 0 <= p < dqIn.Length && !(bgn <= p < bgn + width) ==> dqIn[p] == old(dqIn[p])
      ensures forall g :: 0 <= g < dqsIn.Length && g != group ==> dqsIn[g] == old(dqsIn[g])
      ensures report.Margins? && report.left == left[..] && report.right == right[..]
      ensures Settled(start, group, bgn, report) && MarginsKept(start, group, bgn, report)
      ensures ok <==> InsideWindows(start, group, bgn, report)
    {
      hide IdealDq, PlacedByLoop, MidTaps, IsLeast, ClampedUpTo;
      var midMin, minIndex := FindMinIndex(left, right);
      var newDqs := Clamp(0, start - MidTaps(midMin), dqsMax);
      var dqMargin, dqsMargin := CentreDq(bgn, left, right, midMin, start - newDqs);
      assert dqIn[..][bgn..bgn + width] == dqIn[bgn..bgn + width];
      LeastMeansInside(bgn, dqIn[..], left[..], right[..], start, newDqs, dqMargin, dqsMargin);
      dqsIn[group] := newDqs;
      ok := dqMargin >= 0 && dqsMargin >= 0;
      report := Margins(left[..], right[..], minIndex, dqMargin, dqsMargin);
    }

    // Where the centring loop puts a DQ that should be delayed by ideal.  A DQ
    // that should go past the end of its chain stops there if the group begins
    // at pin 0, and otherwise somewhere in the chain.
    ghost predicate PlacedByLoop(dq: int, ideal: int, bgn: nat) {
      if bgn == 0 then Placed(dq, ideal, dqMax)
      else 0 <= dq <= dqMax && (ideal <= dqMax ==> Placed(dq, ideal, dqMax))
    }

    // rw_mgr_mem_calibrate_vfifo_center
    method VfifoCenter(group: nat, bgn: nat) returns (ok: bool, report: Report)
      requires Valid() && InRange(group, bgn)
      modifies dqIn, dqsIn
      ensures Valid()
      ensures forall p :: 0 <= p < dqIn.Length && !(bgn <= p < bgn + width) ==> dqIn[p] == old(dqIn[p])
      ensures forall g :: 0 <= g < dqsIn.Length && g != group ==> dqsIn[g] == old(dqsIn[g])
      // no window
      ensures report.NoWindow? <==> exists i :: 0 <= i < width && !HasWindow(i, old(dqsIn[group]))
      ensures report.NoWindow? ==>
                && !ok && report.bit < width && !HasWindow(report.bit, old(dqsIn[group]))
                && (forall i :: 0 <= i < report.bit ==> HasWindow(i, old(dqsIn[group])))
                && dqsIn[group] == old(dqsIn[group])
                && (forall p :: bgn <= p < bgn + width ==> dqIn[p] == 0)
      // windows: measured, then centred
      ensures report.Margins? ==>
                && |report.left| == |report.right| == width
                && AllMeasured(eye, old(dqsIn[group]), old(dqsIn[group]) - dqMax, dqsMax,
                               report.left, report.right, Illegal())
                && Settled(old(dqsIn[group]), group, bgn, report)
                && MarginsKept(old(dqsIn[group]), group, bgn, report)
                && (ok <==> InsideWindows(old(dqsIn[group]), group, bgn, report))
    {
      hide AllMeasured, Seen, Settled, InsideWindows, MarginsKept;
      var start := dqsIn[group];
      var left, right := new int[width], new int[width];
      Search(group, bgn, left, right);
      var bit := FirstWithoutWindow(left, right, Illegal());
      WindowsFromEdges(eye, start, start - dqMax, dqsMax, left[..], right[..], Illegal(), bit);
      assert forall k :: 0 <= k < bit ==> HasWindow(k, start);
      if bit < width {
        assert !HasWindow(bit, start);
        dqsIn[group] := start;
        return false, NoWindow(bit);
      }
      ok, report := Centre(group, bgn, start, left, right);
    }

    // DQS sits at the centre of the right-most window, as far as its chain
    // allows, and every DQ has its own window centred on that.
    ghost predicate Settled(start: int, group: nat, bgn: nat, report: Report)
      requires InRange(group, bgn)
      requires report.Margins? && |report.left| == |report.right| == width
      reads dqIn, dqsIn
    {
      && report.minIndex < width
      && var midMin := report.left[report.minIndex] - report.right[report.minIndex];
      && (forall i :: 0 <= i < width ==> midMin <= report.left[i] - report.right[i])
      && dqsIn[group] == Clamp(0, start - MidTaps(midMin), dqsMax)
      && forall p :: bgn <= p < bgn + width ==>
           PlacedByLoop(dqIn[p], IdealDq(report.left[p - bgn] - report.right[p - bgn],
                                         midMin, start - dqsIn[group]), bgn)
    }

    // The margins reported are the least of those of the bits where they were left.
    ghost predicate MarginsKept(start: int, group: nat, bgn: nat, report: Report)
      requires InRange(group, bgn)
      requires report.Margins? && |report.left| == |report.right| == width
      reads dqIn, dqsIn
    {
      var dq, dqsMove := dqIn[bgn..bgn + width], start - dqsIn[group];
      && IsLeast(report.dqMargin, dqMax + 1, LeftMargins(report.left, dq, dqsMove))
      && IsLeast(report.dqsMargin, dqMax + 1, RightMargins(report.right, dq, dqsMove))
    }

    // Every bit is sampled between its edges.
    ghost predicate InsideWindows(start: int, group: nat, bgn: nat, report: Report)
      requires InRange(group, bgn)
      requires report.Margins? && |report.left| == |report.right| == width
      reads dqIn, dqsIn
    {
      forall p :: bgn <= p < bgn + width ==>
        start - report.left[p - bgn] <= dqsIn[group] - dqIn[p] <= start + report.right[p - bgn]
    }

    // A group that calibrated passes its test where it was left, on every bit whose
    // eye has no gap.
    lemma CalibratedGroupPasses(start: int, group: nat, bgn: nat, report: Report)
      requires InRange(group, bgn)
      requires report.Margins? && |report.left| == |report.right| == width
      requires AllMeasured(eye, start, start - dqMax, dqsMax, report.left, report.right, Illegal())
      requires forall i :: 0 <= i < width ==> HasWindow(i, start)
      requires InsideWindows(start, group, bgn, report)
      ensures forall i :: 0 <= i < width && Interval(eye, i) ==> eye(i, Position(group, bgn, i))
    {
      forall i | 0 <= i < width && Interval(eye, i)
        ensures eye(i, Position(group, bgn, i))
      {
        var p := bgn + i;
        assert start - report.left[p - bgn] <= dqsIn[group] - dqIn[p] <= start + report.right[p - bgn];
        assert Measured(eye, i, start, start - dqMax, dqsMax, report.left[i], report.right[i], Illegal());
        assert Interval(eye, i) && HasWindow(i, start);
      }
    }

    // No DQ delay can be improved, and as long as no DQ chain is too short neither
    // can the DQS delay.  Bits whose chain is long enough have their margins
    // balanced to within one tap.  (A chain that is too short is used to its end
    // in a group that begins at pin 0.)
    lemma SettledIsBest(start: int, group: nat, bgn: nat, report: Report, i: nat, dqs: int, dq: int)
      requires Valid() && InRange(group, bgn) && 0 <= start <= dqsMax && i < width
      requires report.Margins? && |report.left| == |report.right| == width
      requires Settled(start, group, bgn, report)
      requires 0 <= dqs <= dqsMax && 0 <= dq <= dqMax
      ensures var left, right := report.left[i], report.right[i];
              var midMin := report.left[report.minIndex] - report.right[report.minIndex];
              var ideal := IdealDq(left - right, midMin, start - dqsIn[group]);
              var moved := Position(group, bgn, i) - start;
              && (bgn == 0 || ideal <= dqMax ==>
                    SmallestMargin(left, right, dqsIn[group] - dq - start) <= SmallestMargin(left, right, moved))
              && (ideal <= dqMax ==>
                    SmallestMargin(left, right, dqs - dq - start) <= SmallestMargin(left, right, moved))
              && (0 <= ideal <= dqMax ==> Centred(left, right, moved))
    {
      hide IdealDq, MidTaps, SmallestMargin, Centred;
      var p := bgn + i;
      var left, right := report.left[i], report.right[i];
      var midMin := report.left[report.minIndex] - report.right[report.minIndex];
      var ideal := IdealDq(report.left[p - bgn] - report.right[p - bgn], midMin, start - dqsIn[group]);
      assert PlacedByLoop(dqIn[p], ideal, bgn);
      assert midMin <= left - right;
      if bgn == 0 || ideal <= dqMax {
        BestDq(left, right, midMin, start - dqsIn[group], dqMax, dqIn[p], dq);
      }
      if ideal <= dqMax {
        BestDqsAndDq(left, right, midMin, start, dqsMax, dqMax, dqsIn[group], dqIn[p], dqs, dq);
        IdealIsCentred(left, right, midMin, start - dqsIn[group]);
      }
    }

    // The upper clamp as coded, when the register it reads holds other: the
    // delay is right for every ideal except one past the end of the chain with
    // other in use.
    lemma UpperClampIsExact(ideal: int, other: int)
      requires 0 <= other <= dqMax
      ensures ClampedDelay(ideal, other) == Clamp(0, ideal, dqMax) <==> ideal <= dqMax || other == 0
    {
    }
  }

  // A group of eight that begins at pin 8, DQS moved by 23 taps.  Bit 0 was seen to
  // pass from 31 to 25 taps below the start, the others from 20 to 26 above.  Pin 8
  // should be delayed by 51 taps, so to the end of its chain at 31; with pin 0 at 5 it
  // stops at 26.
  method MisplacedPin(eye: EyeMap) returns (phy: ReadPhy, ideal: int)
    ensures fresh(phy.dqIn) && phy.dqIn.Length == 16 && phy.dqIn[0] == 5
    ensures ideal == IdealDq(31 - -25, -20 - 26, -23) && Clamp(0, ideal, phy.dqMax) == 31
    ensures phy.dqIn[8] == 26
  {
    phy := new ReadPhy(eye, 16, 2);
    phy.dqIn[0] := 5;
    var left := new int[8](i => if i == 0 then 31 else -20);
    var right := new int[8](i => if i == 0 then -25 else 26);
    var _, _ := phy.CentreDq(8, left, right, -46, -23);
    ideal := IdealDq(31 - -25, -20 - 26, -23);
  }
}
