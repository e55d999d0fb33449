// rw_mgr_mem_calibrate_vfifo: the search over output delay, output phase and DQS
// input delay for settings at which DQS enable and the read deskew both succeed.

module VfifoStage {

  const CAL_SUBSTAGE_GUARANTEED_READ: nat := 1
  const CAL_SUBSTAGE_DQS_EN_PHASE: nat := 2
  const CAL_SUBSTAGE_VFIFO_CENTER: nat := 3

  // How the hardware answers, given output delay d, output phase p and DQS input
  // delay; the centring also depends on the DQS input delay it starts from.
  datatype Answers = Answers(
    // the guaranteed read at d, p
    guaranteed: (nat, nat) -> bool,
    // the DQS enable search at d, p and a DQS input delay
    phase: (nat, nat, nat) -> bool,
    // the read deskew, with the delay DQS enable was found at and the one restored
    center: (nat, nat, nat, nat) -> bool,
    // the DQS input delay an unsuccessful read deskew leaves
    left: (nat, nat, nat, nat) -> nat)

  datatype Found = Found(row: nat, p: nat, tap: nat)

  class Stage {
    const a: Answers
    // IO_DQDQS_OUT_PHASE_MAX, IO_DQS_IN_DELAY_MAX and dtaps_per_ptap
    const phaseMax: nat
    const tapMax: nat
    const dtapsPerPtap: nat
    // The DQS input delay register of the read group.
    var dqsIn: nat

    constructor (a: Answers, phaseMax: nat, tapMax: nat, dtapsPerPtap: nat, dqsIn: nat)
      ensures this.a == a && this.phaseMax == phaseMax && this.tapMax == tapMax && this.dqsIn == dqsIn
      ensures this.dtapsPerPtap == dtapsPerPtap
    {
      this.a, this.phaseMax, this.tapMax, this.dtapsPerPtap, this.dqsIn := a, phaseMax, tapMax, dtapsPerPtap, dqsIn;
    }

    // The read deskew leaves a delay the chain has.
    ghost predicate LeavesLegalDelays() {
      forall d, p, tap, start :: a.left(d, p, tap, start) <= tapMax
    }

    // ---------- what is tried ----------

    // One try: DQS enable found at tap, deskewed from start.
    ghost predicate Works(d: nat, p: nat, tap: nat, start: nat) {
      a.phase(d, p, tap) && a.center(d, p, tap, start)
    }

    // What the register holds when no tap from start on worked.
    ghost function AfterTaps(d: nat, p: nat, start: nat): nat {
      if start > tapMax then start
      else if a.phase(d, p, tapMax) then a.left(d, p, tapMax, start) else tapMax
    }

    // The guaranteed read passes in the phases of d up to p; where it fails the
    // phases of that delay end.
    ghost predicate Reached(d: nat, p: nat) {
      forall q :: 0 <= q <= p ==> a.guaranteed(d, q)
    }

    ghost predicate RowReached(k: nat) {
      Reached(2 * k, 0)
    }

    // k is the last row of which a phase was reached.
    ghost predicate LastRow(k: nat) {
      && 2 * k <= dtapsPerPtap && RowReached(k)
      && forall j :: k < j && 2 * j <= dtapsPerPtap ==> !RowReached(j)
    }

    // p is the last phase of row k that was reached.
    ghost predicate LastReached(k: nat, p: nat) {
      p <= phaseMax && Reached(2 * k, p) && (p < phaseMax ==> !a.guaranteed(2 * k, p + 1))
    }

    // The step at which the last tap of row k and phase p failed.
    ghost function LastStep(k: nat, p: nat): nat {
      if a.phase(2 * k, p, tapMax) then CAL_SUBSTAGE_VFIFO_CENTER else CAL_SUBSTAGE_DQS_EN_PHASE
    }

    // The register before phase p of output delay d, when nothing of d worked before
    // and reg was there at first.
    ghost function RegIn(d: nat, p: nat, reg: nat): nat {
      if p == 0 then reg
      else if Reached(d, p - 1) then AfterTaps(d, p - 1, RegIn(d, p - 1, reg))
      else RegIn(d, p - 1, reg)
    }

    // The register before row k, the row of output delay 2 * k.
    ghost function RegAt(k: nat, reg: nat): nat {
      if k == 0 then reg else RegIn(2 * (k - 1), phaseMax + 1, RegAt(k - 1, reg))
    }

    // Where the taps of row k and phase p start.
    ghost function From(k: nat, p: nat, reg: nat): nat {
      RegIn(2 * k, p, RegAt(k, reg))
    }

    // The search gets to row k, phase p, and it works at this tap.
    ghost predicate Hit(k: nat, p: nat, tap: nat, reg: nat) {
      && 2 * k <= dtapsPerPtap && p <= phaseMax && Reached(2 * k, p)
      && From(k, p, reg) <= tap <= tapMax && Works(2 * k, p, tap, From(k, p, reg))
    }

    // Nothing works before row k, nor in row k before phase p.
    ghost predicate NoneBefore(k: nat, p: nat, reg: nat) {
      forall i, j, tap :: 0 <= i && 0 <= j && (i < k || (i == k && j < p)) ==> !Hit(i, j, tap, reg)
    }

    // ---------- the loops ----------

    // The taps of one output delay and phase.
    method TryTaps(d: nat, p: nat, substage0: nat) returns (ok: bool, substage: nat, tap: nat)
      modifies this
      ensures ok ==> old(dqsIn) <= tap <= tapMax && Works(d, p, tap, old(dqsIn))
      ensures forall t :: old(dqsIn) <= t <= tapMax && (!ok || t < tap) ==> !Works(d, p, t, old(dqsIn))
      ensures !ok ==> dqsIn == AfterTaps(d, p, old(dqsIn))
      ensures !ok ==> substage == if old(dqsIn) > tapMax then substage0
                                  else if a.phase(d, p, tapMax) then CAL_SUBSTAGE_VFIFO_CENTER
                                  else CAL_SUBSTAGE_DQS_EN_PHASE
    {
      var start := dqsIn;
      ok, substage, tap := false, substage0, start;
      while tap <= tapMax && !ok
        invariant start <= tap && (ok ==> tap <= tapMax && Works(d, p, tap, start))
        invariant if start <= tapMax then tap <= tapMax + 1 else tap == start
        invariant forall t :: start <= t < tap ==> !Works(d, p, t, start)
        invariant !ok && tap == start ==> dqsIn == start && substage == substage0
        invariant !ok && tap > start ==>
                    && dqsIn == (if a.phase(d, p, tap - 1) then a.left(d, p, tap - 1, start) else tap - 1)
                    && substage == if a.phase(d, p, tap - 1) then CAL_SUBSTAGE_VFIFO_CENTER
                                   else CAL_SUBSTAGE_DQS_EN_PHASE
        decreases tapMax + 1 - tap, !ok
      {
        dqsIn := tap;
        if a.phase(d, p, tap) {
          dqsIn := a.left(d, p, tap, start);
          if a.center(d, p, tap, start) {
            ok := true;
          } else {
            substage := CAL_SUBSTAGE_VFIFO_CENTER;
          }
        } else {
          substage := CAL_SUBSTAGE_DQS_EN_PHASE;
        }
        if !ok {
          tap := tap + 1;
        }
      }
    }

    // The phases of row k.
    method TryPhases(k: nat, ghost reg: nat, substage0: nat) returns (ok: bool, substage: nat, p: nat, tap: nat)
      requires dqsIn == RegAt(k, reg) && NoneBefore(k, 0, reg) && 2 * k <= dtapsPerPtap
      requires LeavesLegalDelays() && dqsIn <= tapMax
      modifies this
      ensures ok ==> Hit(k, p, tap, reg) && NoneBefore(k, p, reg)
      ensures ok ==> forall t :: From(k, p, reg) <= t < tap ==> !Works(2 * k, p, t, From(k, p, reg))
      ensures !ok ==> dqsIn == RegAt(k + 1, reg) && NoneBefore(k + 1, 0, reg) && dqsIn <= tapMax
      ensures !ok ==> (substage == CAL_SUBSTAGE_GUARANTEED_READ
                       <==> substage0 == CAL_SUBSTAGE_GUARANTEED_READ && !RowReached(k))
      ensures !ok && !RowReached(k) ==> substage == substage0
      ensures !ok ==> forall q: nat :: LastReached(k, q) ==> substage == LastStep(k, q)
    {
      hide Works;
      ok, substage, p, tap := false, substage0, 0, 0;
      while p <= phaseMax
        invariant 0 <= p <= phaseMax + 1 && dqsIn == RegIn(2 * k, p, RegAt(k, reg))
        invariant dqsIn <= tapMax && (p > 0 ==> Reached(2 * k, p - 1))
        invariant p == 0 ==> substage == substage0
        invariant p > 0 ==> substage == LastStep(k, p - 1)
        invariant p > 0 ==> RowReached(k) && substage != CAL_SUBSTAGE_GUARANTEED_READ
        invariant NoneBefore(k, p, reg)
      {
        if !a.guaranteed(2 * k, p) {
          NotReached(2 * k, p, phaseMax + 1, RegAt(k, reg));
          return;
        }
        ok, substage, tap := TryTaps(2 * k, p, substage);
        if ok {
          return;
        }
        p := p + 1;
      }
    }

    lemma {:induction false} NotReached(d: nat, p: nat, q: nat, reg: nat)
      requires !a.guaranteed(d, p) && p <= q
      ensures RegIn(d, q, reg) == RegIn(d, p, reg)
      ensures forall r :: p <= r ==> !Reached(d, r)
    {
      if q > p {
        NotReached(d, p, q - 1, reg);
      }
    }

    // The whole search.  It succeeds exactly when something it gets to works, and
    // then ends at the first of those; output delays are taken in steps of two.
    // When it fails, the substage reported is that of the guaranteed read only if the
    // guaranteed read failed for every output delay.  Otherwise it is that of the last
    // tap of the last phase reached in the last row reached: the deskew's if DQS
    // enable succeeded there, and else that of DQS enable.
    method Search() returns (ok: bool, substage: nat, found: Found)
      requires LeavesLegalDelays() && dqsIn <= tapMax
      modifies this
      ensures ok <==> exists k, p, tap :: Hit(k, p, tap, old(dqsIn))
      ensures ok ==> Hit(found.row, found.p, found.tap, old(dqsIn)) && NoneBefore(found.row, found.p, old(dqsIn))
      ensures ok ==> forall t :: 0 <= t < found.tap ==> !Hit(found.row, found.p, t, old(dqsIn))
      ensures !ok ==> (substage == 1 <==> forall k :: 0 <= k && 2 * k <= dtapsPerPtap ==> !RowReached(k))
      ensures !ok ==>
                forall k: nat, p: nat :: LastRow(k) && LastReached(k, p) ==>
                  substage == if a.phase(2 * k, p, tapMax) then 3 else 2
    {
      ghost var reg := dqsIn;
      ok, substage, found := false, CAL_SUBSTAGE_GUARANTEED_READ, Found(0, 0, 0);
      var k := 0;
      while 2 * k <= dtapsPerPtap
        invariant k >= 0 && 2 * (k - 1) <= dtapsPerPtap && NoneBefore(k, 0, reg)
        invariant dqsIn == RegAt(k, reg) && dqsIn <= tapMax
        invariant substage == CAL_SUBSTAGE_GUARANTEED_READ <==> forall i :: 0 <= i < k ==> !RowReached(i)
        invariant forall i: nat, p: nat :: i < k && LastReached(i, p) && (forall j :: i < j < k ==> !RowReached(j)) ==>
                    substage == LastStep(i, p)
        invariant !ok
      {
        var p, tap;
        ok, substage, p, tap := TryPhases(k, reg, substage);
        if ok {
          found := Found(k, p, tap);
          return;
        }
        k := k + 1;
      }
      forall i: nat, p: nat, tap: nat
        ensures !Hit(i, p, tap, reg)
      {
      }
    }

    // What a row that was reached leaves in the register, if reg was there at first.
    ghost function LeftByRow(k: nat, reg: nat): nat {
      if a.phase(2 * k, 0, tapMax) then a.left(2 * k, 0, tapMax, reg) else tapMax
    }

    // With one output phase, as in this build: the rows up to k all search from the
    // tap the first one searched from exactly when every row before k that was
    // reached left that tap behind.
    lemma {:induction false} RowsSearchFromFirstTap(k: nat, reg: nat)
      requires phaseMax == 0 && reg <= tapMax
      ensures (forall i :: 0 <= i <= k ==> From(i, 0, reg) == reg)
              <==> forall i :: 0 <= i < k && RowReached(i) ==> LeftByRow(i, reg) == reg
    {
      hide LeftByRow;
      FromFirst(reg);
      if k > 0 {
        RowsSearchFromFirstTap(k - 1, reg);
        if From(k - 1, 0, reg) == reg {
          FromNext(k - 1, reg);
        }
      }
    }

    lemma FromFirst(reg: nat)
      ensures From(0, 0, reg) == reg
    {
    }

    lemma FromNext(k: nat, reg: nat)
      requires phaseMax == 0 && reg <= tapMax && From(k, 0, reg) == reg
      ensures From(k + 1, 0, reg) == if RowReached(k) then LeftByRow(k, reg) else reg
    {
      assert From(k + 1, 0, reg) == RegIn(2 * k, 1, RegAt(k, reg));
      assert Reached(2 * k, 0) == a.guaranteed(2 * k, 0);
    }

    // After a row whose DQS enable failed at the last tap, the delay chain is left at
    // its end, and the rows that follow try that one tap only, for as long as DQS
    // enable goes on failing there.
    lemma {:induction false} LaterRowsTryLastTapOnly(k: nat, reg: nat)
      requires phaseMax == 0 && reg <= tapMax && k > 0
      requires a.guaranteed(0, 0) && forall i :: 0 <= i < k ==> !a.phase(2 * i, 0, tapMax)
      ensures From(k, 0, reg) == tapMax
    {
      assert From(k, 0, reg) == RegIn(2 * (k - 1), 1, RegAt(k - 1, reg));
      assert Reached(2 * (k - 1), 0) == a.guaranteed(2 * (k - 1), 0);
      assert !a.phase(2 * (k - 1), 0, tapMax);
      if k > 1 {
        LaterRowsTryLastTapOnly(k - 1, reg);
      }
    }
  }

  // Answers of a board on which the reads are right, DQS enable works at no input
  // delay but 5, and the deskew there works at output delay 2 only.
  function NarrowBoard(): Answers {
    Answers((d, p) => true, (d, p, tap) => tap == 5, (d, p, tap, start) => d == 2, (d, p, tap, start) => start)
  }

  // This build's ranges, starting from the reserve of 4: the first row leaves the
  // delay chain at its end, and the row that would have worked, found from 4 at tap
  // 5, is never tried there.  The whole search fails.
  lemma WorkingRowIsMissed(stage: Stage)
    requires stage.a == NarrowBoard() && stage.phaseMax == 0 && stage.tapMax == 31 && stage.dtapsPerPtap == 12
    ensures stage.Works(2, 0, 5, 4) && stage.From(0, 0, 4) == 4 && stage.From(1, 0, 4) == 31
    ensures forall k, p, tap :: !stage.Hit(k, p, tap, 4)
  {
    stage.FromFirst(4);
    stage.FromNext(0, 4);
    forall k: nat, p: nat, tap: nat
      ensures !stage.Hit(k, p, tap, 4)
    {
      if k > 0 && p == 0 {
        stage.LaterRowsTryLastTapOnly(k, 4);
      }
    }
  }
}
