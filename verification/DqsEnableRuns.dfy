// Whole runs of the DQS enable search on particular reads, each from VFIFO position 0.

module DqsEnableRuns {
  import opened DqsEnable

  // s is the first setting that passes when the search begins at VFIFO position 1,
  // as it does if the read fails at positions 0 and 1 to begin with.
  ghost predicate FoundFirst(phy: DqsEnPhy, s: Setting) {
    && !phy.passes(0, 1, 0) && !phy.passes(1, 1, 0)
    && Searched(s, DelaysPerPhase()) && phy.Passes(1, s)
    && forall t: Setting :: Searched(t, DelaysPerPhase()) && Earlier(t, s) ==> !phy.Passes(1, t)
  }

  lemma BeginsAtOne(phy: DqsEnPhy)
    requires !phy.passes(0, 1, 0) && !phy.passes(1, 1, 0)
    ensures phy.FailuresBelow(0, VFIFO_SIZE, 1, 0) >= 2
    ensures phy.SecondFailing(0, 1, 1, 0)
    ensures forall base :: phy.SecondFailing(0, base, 1, 0) ==> base == 1
  {
    assert phy.FailuresBelow(0, 0, 1, 0) == 0;
    assert phy.FailuresBelow(0, 1, 1, 0) == 1 && phy.FailuresBelow(0, 2, 1, 0) == 2;
    assert !phy.Passes(0, Setting(1, 1, 0)) && Ring(0 + 1) == 1;
    FailuresGrow(phy, 2, VFIFO_SIZE);
    forall base: nat | phy.SecondFailing(0, base, 1, 0)
      ensures base == 1
    {
      var k :| && 0 <= k < VFIFO_SIZE && base == Ring(0 + k)
               && phy.FailuresBelow(0, k, 1, 0) == 1 && !phy.Passes(0, Setting(k, 1, 0));
      FailuresGrow(phy, 2, k);
    }
  }

  lemma {:induction false} FailuresGrow(phy: DqsEnPhy, m: nat, n: nat)
    ensures m <= n ==> phy.FailuresBelow(0, m, 1, 0) <= phy.FailuresBelow(0, n, 1, 0)
    decreases n
  {
    if m < n {
      FailuresGrow(phy, m, n - 1);
    }
  }

  // A whole search from VFIFO position 0 on a read that has s first: it ends with a
  // window begun there.
  method SearchFrom(phy: DqsEnPhy, ghost s: Setting) returns (outcome: Outcome, w: Window)
    requires phy.Valid() && phy.vfifo == 0 && FoundFirst(phy, s)
    modifies phy
    ensures WindowOf(phy, 1, s, w) && 0 < w.workBgn <= w.workEnd && (outcome.Centred? || outcome.NoCentre?)
    ensures IsCentre(WithinCycle((w.workBgn + w.workEnd) / 2), phy.phase, phy.delay)
    ensures outcome.NoCentre? ==> forall x :: 0 <= x < VFIFO_SIZE ==> !phy.passes(x, phy.phase, phy.delay)
    ensures outcome.Centred? ==>
              && phy.TestPasses()
              && phy.Counted(VfifoBack(Ring(1 + w.end.offset), w.end.phase), PhaseBack(w.end.phase),
                             phy.FirstPast(1, w), DelaysPerPhase(), outcome.dtapsPerPtap)
  {
    hide Ring, IsCentre, DqsEnPhy.Measured, DqsEnPhy.BeginMoved, DqsEnPhy.Fuzzy, DqsEnPhy.Counted, WithinCycle;
    hide DqsEnPhy.SecondFailing, DqsEnPhy.AllPassUpTo, DqsEnPhy.Passes;
    BeginsAtOne(phy);
    ghost var base, first;
    outcome, w, base, first := phy.FindDqsEnPhase();
    assert base == 1;
    assert !Earlier(first, s) && !Earlier(s, first);
  }

  // A read that passes at VFIFO position 3 only, there at the phases given, whatever
  // the delay.
  function PassesAt(phases: set<nat>): (nat, nat, nat) -> bool {
    (v, p, d) => v == 3 && p in phases
  }

  lemma FirstOfPhases(phy: DqsEnPhy, phases: set<nat>, p: nat)
    requires phy.passes == PassesAt(phases) && p in phases && 1 <= p <= PHASE_MAX
    requires forall q :: q in phases ==> p <= q
    ensures FoundFirst(phy, Setting(2, p, 0))
  {
  }

  // The search on such a read, from VFIFO position 0, ends with a window, begun at the
  // first of the phases.
  method SearchPhases(phases: set<nat>, p: nat) returns (phy: DqsEnPhy, w: Window)
    requires p in phases && 1 <= p <= PHASE_MAX && forall q :: q in phases ==> p <= q
    ensures phy.passes == PassesAt(phases) && WindowOf(phy, 1, Setting(2, p, 0), w)
  {
    phy := new DqsEnPhy(PassesAt(phases));
    FirstOfPhases(phy, phases, p);
    var outcome;
    outcome, w := SearchFrom(phy, Setting(2, p, 0));
  }

  // Phase 3 passes and phase 4 does not: the beginning is fuzzy, and the begin time
  // belongs to no setting that passes.
  lemma FuzzyBeginHappens(phy: DqsEnPhy, w: Window)
    requires phy.passes == PassesAt({3, 5, 6}) && WindowOf(phy, 1, Setting(2, 3, 0), w)
    ensures FoundFirst(phy, Setting(2, 3, 0))
    ensures phy.Fuzzy(1, Setting(2, 3, 0))
    ensures !exists t: Setting :: Legal(t) && Time(t) == w.workBgn && phy.Passes(1, t)
  {
    FirstOfPhases(phy, {3, 5, 6}, 3);
    assert !phy.Passes(1, Setting(2, 4, 0));
    BeginPassesUnlessFuzzy(phy, 1, Setting(2, 3, 0), w);
  }

  lemma LastOfPhases(phy: DqsEnPhy, w: Window)
    requires phy.passes == PassesAt({1, 3, 4, 5}) && phy.Measured(1, Setting(2, 1, 0), w)
    requires !phy.Fuzzy(1, Setting(2, 1, 0))
    ensures w.begin == Setting(2, 1, 0) && w.end == Setting(2, 5, 31)
  {
    var s, e := Setting(2, 1, 0), w.end;
    assert Ring(1 + e.offset) == 3 && e.phase in {1, 3, 4, 5};
    assert phy.Passes(1, e.(delay := e.delay + 1));
    var after := PhaseAfter(e.(delay := 0));
    assert !phy.Passes(1, after) && Ring(1 + after.offset) == 3 && after.phase !in {1, 3, 4, 5};
    assert !phy.Passes(1, Setting(2, 6, 0));
    assert Time(s) + phy.Lag(s) < Time(Setting(2, 6, 0));
    assert Time(e.(delay := 0)) <= Time(Setting(2, 6, 0));
  }

  // Phases 1 and 3 to 5 pass and phase 2 does not: it lies inside the window, and the
  // end time is that of phase 4, not of the last that passes.
  lemma PhaseTwoIsMissed(phy: DqsEnPhy, w: Window)
    requires phy.passes == PassesAt({1, 3, 4, 5}) && WindowOf(phy, 1, Setting(2, 1, 0), w)
    ensures FoundFirst(phy, Setting(2, 1, 0))
    ensures !phy.Passes(1, Setting(2, 2, 0)) && w.workBgn < Time(Setting(2, 2, 0)) < w.workEnd
    ensures phy.Passes(1, Setting(2, 5, 31)) && w.workEnd + PHASE_TAP == Time(Setting(2, 5, 31))
  {
    FirstOfPhases(phy, {1, 3, 4, 5}, 1);
    assert phy.Passes(1, Setting(2, 3, 0)) && !phy.Fuzzy(1, Setting(2, 1, 0));
    LastOfPhases(phy, w);
  }

  // A read with a window of 100 picoseconds around phase 0 of a cycle: the last
  // delays of phases 6 and 7 before it.
  function PassesAroundPhaseZero(): (nat, nat, nat) -> bool {
    (v, p, d) => v == 3 && ((p == 7 && 12 <= d <= 16) || (p == 6 && 25 <= d <= 28))
  }

  // It passes throughout its window, and nowhere at the centre.
  lemma CentreMissesWindow(phy: DqsEnPhy, w: Window)
    requires phy.passes == PassesAroundPhaseZero() && WindowOf(phy, 1, Setting(2, 7, 12), w)
    ensures FoundFirst(phy, Setting(2, 7, 12))
    ensures w.workBgn == Time(Setting(2, 7, 12)) && w.workEnd == w.workBgn + 100
    ensures SolidOn(phy.passes, 1, w.workBgn, w.workEnd)
    ensures WithinCycle((w.workBgn + w.workEnd) / 2) <= PHASE_TAP
    ensures forall x: nat :: !phy.passes(x, 1, 0)
  {
    var s := Setting(2, 7, 12);
    assert w.begin == s && w.end.offset == 2 && w.end.phase == 7;
    assert phy.Passes(1, w.end) && 12 <= w.end.delay <= 16;
    assert w.end.delay == 16;
    forall t: Setting | Legal(t) && w.workBgn <= Time(t) <= w.workEnd
      ensures phy.passes(Ring(1 + t.offset), t.phase, t.delay)
    {
      var n := 8 * t.offset + t.phase;
      assert 7476 <= PHASE_TAP * n + DELAY_TAP * t.delay <= 7576 && 20 <= n <= 24;
    }
  }

  // So the whole search fails on it.
  method SearchAroundPhaseZero() returns (phy: DqsEnPhy, outcome: Outcome, w: Window)
    ensures phy.passes == PassesAroundPhaseZero() && WindowOf(phy, 1, Setting(2, 7, 12), w)
    ensures outcome == NoCentre
  {
    hide DqsEnPhy.Measured, DqsEnPhy.BeginMoved;
    phy := new DqsEnPhy(PassesAroundPhaseZero());
    FirstAroundPhaseZero(phy);
    outcome, w := SearchFrom(phy, Setting(2, 7, 12));
    CentreMissesWindow(phy, w);
  }

  lemma FirstAroundPhaseZero(phy: DqsEnPhy)
    requires phy.passes == PassesAroundPhaseZero()
    ensures FoundFirst(phy, Setting(2, 7, 12))
  {
  }

  // A read that passes from phase 5 of VFIFO position 3 to delay 2 of phase 1 of
  // position 4.
  function PassesIntoPhaseOne(): (nat, nat, nat) -> bool {
    (v, p, d) => 9048 <= PHASE_TAP * (8 * v + p) + DELAY_TAP * d <= 10346
  }

  lemma EndsAtPhaseOne(phy: DqsEnPhy, w: Window)
    requires phy.passes == PassesIntoPhaseOne() && WindowOf(phy, 1, Setting(2, 5, 0), w)
    ensures FoundFirst(phy, Setting(2, 5, 0)) && w.end == Setting(3, 1, 2) && phy.Passes(1, w.end)
    ensures w.workBgn == Time(Setting(2, 5, 0)) && w.workEnd == Time(w.end)
  {
    var s := Setting(2, 5, 0);
    FirstIntoPhaseOne(phy);
    assert phy.Passes(1, Setting(2, 6, 0)) && !phy.Fuzzy(1, s);
    assert w.begin == s;
    EndIntoPhaseOne(phy, w);
  }

  lemma EndIntoPhaseOne(phy: DqsEnPhy, w: Window)
    requires phy.passes == PassesIntoPhaseOne() && !phy.Fuzzy(1, Setting(2, 5, 0))
    requires phy.EndMeasured(1, Setting(2, 5, 0), w) && phy.Passes(1, w.end)
    ensures w.end == Setting(3, 1, 2) && w.workEnd == Time(w.end)
  {
    var s, e, row := Setting(2, 5, 0), w.end, w.end.(delay := 0);
    assert Time(Setting(2, 6, 0)) <= Time(row) <= Time(Setting(3, 2, 0)) by {
      assert phy.LastPhase(1, s, row);
      assert !phy.Passes(1, Setting(3, 2, 0));
    }
    RowsIntoPhaseOne(row);
    assert !phy.Passes(1, PhaseAfter(row)) by {
      assert phy.LastPhase(1, s, row);
    }
    assert row == Setting(3, 1, 0);
    assert phy.LastPassingDelay(1, s, e);
    assert phy.passes(4, 1, 2) && !phy.passes(4, 1, 3) && phy.passes(4, 1, e.delay);
  }

  lemma RowsIntoPhaseOne(row: Setting)
    requires 1 <= row.phase <= PHASE_MAX && row.delay == 0
    requires Time(Setting(2, 6, 0)) <= Time(row) <= Time(Setting(3, 2, 0))
    ensures row in {Setting(2, 6, 0), Setting(2, 7, 0), Setting(3, 1, 0), Setting(3, 2, 0)}
  {
    assert 22 <= 8 * row.offset + row.phase <= 26;
  }

  lemma FirstIntoPhaseOne(phy: DqsEnPhy)
    requires phy.passes == PassesIntoPhaseOne()
    ensures FoundFirst(phy, Setting(2, 5, 0))
  {
  }

  // The search on it succeeds, with a count of 24 where 12 delay taps make up a phase
  // tap.
  method SearchIntoPhaseOne() returns (phy: DqsEnPhy, outcome: Outcome, w: Window)
    ensures phy.passes == PassesIntoPhaseOne() && w.end == Setting(3, 1, 2)
    ensures outcome == Centred(24)
  {
    hide DqsEnPhy.Measured, DqsEnPhy.BeginMoved, DqsEnPhy.Counted;
    phy := new DqsEnPhy(PassesIntoPhaseOne());
    FirstIntoPhaseOne(phy);
    outcome, w := SearchFrom(phy, Setting(2, 5, 0));
    EndsAtPhaseOne(phy, w);
    assert phy.passes(3, phy.phase, phy.delay);
    CountFromPhaseOne(phy, outcome.dtapsPerPtap);
  }

  lemma CountFromPhaseOne(phy: DqsEnPhy, taps: nat)
    requires phy.passes == PassesIntoPhaseOne()
    requires phy.Counted(VfifoBack(Ring(1 + 3), 1), PhaseBack(1), 3, DelaysPerPhase(), taps)
    ensures taps == 24
  {
    assert phy.IsDrop(3, 7, 3, 3, 27);
  }
}
