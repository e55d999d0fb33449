// rw_mgr_mem_calibrate_vfifo_find_dqs_en_phase: find where the DQS enable window
// begins and ends, and set the DQS enable to its centre.
//
// A setting is a VFIFO offset, a phase and a delay.  The hardware VFIFO is a ring,
// so offsets that differ by its size are one setting; offsets are counted from
// where the VFIFO stood when the search for the window began.

module DqsEnable {

  const VFIFO_SIZE: nat := 16        // READ_VALID_FIFO_SIZE
  const PHASE_MAX: nat := 7          // IO_DQS_EN_PHASE_MAX
  const DELAY_MAX: nat := 31         // IO_DQS_EN_DELAY_MAX
  const PHASE_TAP: nat := 312        // IO_DELAY_PER_OPA_TAP
  const DELAY_TAP: nat := 25         // IO_DELAY_PER_DQS_EN_DCHAIN_TAP
  const CYCLE: nat := 2496           // one VFIFO cycle: eight phases

  datatype Setting = Setting(offset: nat, phase: nat, delay: nat)

  // The delay of a setting in picoseconds.
  function Time(s: Setting): nat {
    PHASE_TAP * (8 * s.offset + s.phase) + DELAY_TAP * s.delay
  }

  // The phase before s; phase 0 cannot be set and is stepped over.
  function PhaseBefore(s: Setting): Setting
    requires s.offset > 0 || s.phase > 1
  {
    if s.phase <= 1 then s.(offset := s.offset - 1, phase := PHASE_MAX) else s.(phase := s.phase - 1)
  }

  // The phase after s, phase 0 again stepped over.
  function PhaseAfter(s: Setting): Setting {
    if s.phase >= PHASE_MAX then s.(offset := s.offset + 1, phase := 1) else s.(phase := s.phase + 1)
  }

  // Setting s comes before t in the order of the search for the beginning.
  predicate Earlier(s: Setting, t: Setting) {
    || s.delay < t.delay
    || (s.delay == t.delay && s.offset < t.offset)
    || (s.delay == t.delay && s.offset == t.offset && s.phase < t.phase)
  }

  // The settings the hardware has.
  predicate Legal(s: Setting) {
    1 <= s.phase <= PHASE_MAX && s.delay <= DELAY_MAX
  }

  // The settings that search goes through.
  predicate Searched(s: Setting, taps: nat) {
    s.delay <= taps && s.offset < VFIFO_SIZE && 1 <= s.phase <= PHASE_MAX
  }

  // The window as measured: the settings of its ends and the times computed.
  datatype Window = Window(begin: Setting, end: Setting, workBgn: nat, workEnd: int)

  datatype Outcome = NoFailingRead | NoBegin | NoEnd | NoCentre | Centred(dtapsPerPtap: nat)

  // Delay taps in a phase tap.
  function DelaysPerPhase(): nat {
    PHASE_TAP / DELAY_TAP
  }

  // Step 0: the same, counted.
  method StaticDelaysPerPhase() returns (taps: nat)
    ensures taps == DelaysPerPhase()
  {
    var n, tmpDelay := 0, 0;
    while tmpDelay < PHASE_TAP
      invariant tmpDelay == DELAY_TAP * n && tmpDelay < PHASE_TAP + DELAY_TAP
    {
      n := n + 1;
      tmpDelay := tmpDelay + DELAY_TAP;
    }
    taps := n - 1;
  }

  // The VFIFO is a ring.
  function Ring(n: nat): (r: nat)
    ensures r < VFIFO_SIZE
  {
    n % VFIFO_SIZE
  }

  lemma RingNext(n: nat)
    ensures Ring(Ring(n) + 1) == Ring(n + 1)
  {
  }

  lemma RingStart(n: nat)
    ensures n < VFIFO_SIZE ==> Ring(n + 0) == n
  {
  }

  // A whole turn is no move.
  lemma RingTurn(n: nat)
    ensures Ring(n + VFIFO_SIZE) == Ring(n)
  {
  }

  // How far on from ring position a the position b is.
  lemma RingDistance(a: nat, b: nat) returns (k: nat)
    requires a < VFIFO_SIZE && b < VFIFO_SIZE
    ensures k < VFIFO_SIZE && Ring(a + k) == b
  {
    k := if a <= b then b - a else b + VFIFO_SIZE - a;
  }

  // Moving on is undone by going all the way round but one.
  lemma RingBack(n: nat, m: nat)
    requires Ring(n + 1) == Ring(m + 1)
    ensures Ring(n) == Ring(m)
  {
  }

  // One phase back from VFIFO position vf and phase p; from phase 1 that skips phase 0.
  function VfifoBack(vf: nat, p: nat): nat {
    if p <= 1 then Ring(vf + VFIFO_SIZE - 1) else vf
  }

  function PhaseBack(p: nat): nat {
    if p <= 1 then PHASE_MAX else p - 1
  }

  lemma BackOnRing(vf: nat, vf0: nat)
    requires vf < VFIFO_SIZE && Ring(vf + 1) == vf0
    ensures vf == Ring(vf0 + VFIFO_SIZE - 1)
  {
  }

  class DqsEnPhy {
    // Does the read test pass at this VFIFO position, phase and delay?
    const passes: (nat, nat, nat) -> bool
    var vfifo: nat
    var phase: nat
    var delay: nat

    constructor (passes: (nat, nat, nat) -> bool)
      ensures this.passes == passes && Valid() && vfifo == 0
    {
      this.passes := passes;
      vfifo, phase, delay := 0, 0, 0;
    }

    ghost predicate Valid()
      reads this
    {
      vfifo < VFIFO_SIZE
    }

    // Does setting s pass, offsets being counted from VFIFO position base?
    predicate Passes(base: nat, s: Setting) {
      passes(Ring(base + s.offset), s.phase, s.delay)
    }

    // The hardware is at setting s.
    ghost predicate At(base: nat, s: Setting)
      reads this
    {
      vfifo == Ring(base + s.offset) && phase == s.phase && delay == s.delay
    }

    // One read test.
    predicate TestPasses()
      reads this
    {
      passes(vfifo, phase, delay)
    }

    // rw_mgr_mem_calibrate_read_test_all_ranks: every try has to succeed.
    method ReadTest(tries: nat) returns (ok: bool)
      ensures ok == TestPasses()
    {
      var n := if tries == 0 then 1 else tries;
      ok := true;
      var i := 0;
      while i < n
        invariant i <= n && (ok <==> i == 0 || TestPasses())
      {
        ok := ok && TestPasses();
        i := i + 1;
        if !ok {
          break;
        }
      }
    }

    // rw_mgr_incr_vfifo
    method IncrVfifo(v: nat) returns (v': nat)
      requires Valid()
      modifies this`vfifo
      ensures Valid() && vfifo == Ring(old(vfifo) + 1) && v' == v + 1
    {
      vfifo := Ring(vfifo + 1);
      v' := v + 1;
    }

    // rw_mgr_decr_vfifo goes all the way round but one.
    method DecrVfifo(v: nat) returns (v': nat)
      requires Valid()
      modifies this`vfifo
      ensures Valid() && v' == v + VFIFO_SIZE - 1
      ensures Ring(vfifo + 1) == old(vfifo)
    {
      hide Ring;
      RingStart(vfifo);
      v' := v;
      for i := 0 to VFIFO_SIZE - 1
        invariant Valid() && v' == v + i && vfifo == Ring(old(vfifo) + i)
      {
        RingNext(old(vfifo) + i);
        v' := IncrVfifo(v');
      }
      RingNext(old(vfifo) + VFIFO_SIZE - 1);
      RingTurn(old(vfifo));
    }

    // Go one phase on; past the last phase the VFIFO moves on.
    method PhaseUp(p: nat, v: nat) returns (p': nat, v': nat)
      requires Valid()
      modifies this`vfifo
      ensures Valid()
      ensures if p + 1 > PHASE_MAX
              then p' == 0 && vfifo == Ring(old(vfifo) + 1) && v' == v + 1
              else p' == p + 1 && vfifo == old(vfifo) && v' == v
    {
      p', v' := p + 1, v;
      if p' > PHASE_MAX {
        p' := 0;
        v' := IncrVfifo(v);
      }
    }

    // Go one phase back; before phase 0 the VFIFO moves back.
    method PhaseDown(p: nat, v: nat) returns (p': nat, v': nat)
      requires Valid()
      modifies this`vfifo
      ensures Valid()
      ensures if p == 0
              then p' == PHASE_MAX && Ring(vfifo + 1) == old(vfifo) && v' == v + VFIFO_SIZE - 1
              else p' == p - 1 && vfifo == old(vfifo) && v' == v
    {
      if p == 0 {
        p' := PHASE_MAX;
        v' := DecrVfifo(v);
      } else {
        p', v' := p - 1, v;
      }
    }

    // How many of the first n VFIFO positions from base fail at phase p and delay d.
    function FailuresBelow(base: nat, n: nat, p: nat, d: nat): nat {
      if n == 0 then 0 else FailuresBelow(base, n - 1, p, d) + if Passes(base, Setting(n - 1, p, d)) then 0 else 1
    }

    // base is the second position from start on that fails at phase p and delay d.
    ghost predicate SecondFailing(start: nat, base: nat, p: nat, d: nat) {
      exists k :: && 0 <= k < VFIFO_SIZE && base == Ring(start + k)
                  && FailuresBelow(start, k, p, d) == 1 && !Passes(start, Setting(k, p, d))
    }

    // Step 1: push the VFIFO on to the second position at which the read test fails.
    method PushUntilFailing() returns (found: bool, v: nat)
      requires Valid()
      modifies this`vfifo
      ensures Valid() && v <= VFIFO_SIZE && (found <==> v < VFIFO_SIZE)
      ensures vfifo == Ring(old(vfifo) + v)
      ensures found ==> SecondFailing(old(vfifo), vfifo, phase, delay)
      ensures !found ==> FailuresBelow(old(vfifo), VFIFO_SIZE, phase, delay) <= 1
    {
      hide Ring;
      ghost var base := vfifo;
      RingStart(base);
      var failures := 0;
      v := 0;
      while v < VFIFO_SIZE
        invariant Valid() && v <= VFIFO_SIZE && vfifo == Ring(base + v)
        invariant failures == FailuresBelow(base, v, phase, delay) <= 1
        decreases VFIFO_SIZE - v
      {
        var ok := ReadTest(5);
        assert ok == Passes(base, Setting(v, phase, delay));
        if !ok {
          failures := failures + 1;
          if failures == 2 {
            break;
          }
        }
        RingNext(base + v);
        v := IncrVfifo(v);
      }
      found := v < VFIFO_SIZE;
    }

    // Step 2: the first passing setting, delays outermost and phases innermost.
    method FindBegin(taps: nat, v0: nat) returns (found: bool, s: Setting, workBgn: nat, v: nat)
      requires Valid()
      modifies this
      ensures Valid()
      ensures !found ==> forall t: Setting :: Searched(t, taps) ==> !Passes(old(vfifo), t)
      ensures found ==>
                && Searched(s, taps) && At(old(vfifo), s) && Passes(old(vfifo), s) && workBgn == Time(s)
                && forall t: Setting :: Searched(t, taps) && Earlier(t, s) ==> !Passes(old(vfifo), t)
    {
      hide Ring;
      ghost var base := vfifo;
      found, v, s, workBgn := false, v0, Setting(0, 0, 0), 0;
      var d, tmpDelay := 0, 0;
      while d <= taps
        invariant d <= taps + 1 && tmpDelay == DELAY_TAP * d
        invariant Valid() && vfifo == base
        invariant forall t: Setting :: Searched(t, taps) && Earlier(t, Setting(0, 0, d)) ==> !Passes(base, t)
      {
        workBgn := tmpDelay;
        delay := d;
        RingStart(base);
        var i := 0;
        while i < VFIFO_SIZE
          invariant i <= VFIFO_SIZE && workBgn == Time(Setting(i, 0, d)) && delay == d
          invariant Valid() && vfifo == Ring(base + i)
          invariant forall t: Setting :: Searched(t, taps) && Earlier(t, Setting(i, 0, d)) ==> !Passes(base, t)
        {
          var p := 0;
          while p <= PHASE_MAX
            invariant p <= PHASE_MAX + 1 && workBgn == Time(Setting(i, p, d)) && delay == d
            invariant Valid() && vfifo == Ring(base + i)
            invariant forall t: Setting :: Searched(t, taps) && Earlier(t, Setting(i, p, d)) ==> !Passes(base, t)
          {
            if p != 0 {
              phase := p;
              found := ReadTest(5);
              if found {
                s := Setting(i, p, d);
                return;
              }
            }
            p := p + 1;
            workBgn := workBgn + PHASE_TAP;
          }
          RingNext(base + i);
          v := IncrVfifo(v);
          i := i + 1;
        }
        RingTurn(base);
        d := d + 1;
        tmpDelay := tmpDelay + DELAY_TAP;
      }
    }

    // Step 3a: back off one phase, if there is one to back off to, and look for
    // the beginning in delays.  p comes back one above where the search ended,
    // which is where it started except that a begin at phase 1 has moved to 2.
    method RefineBegin(ghost base: nat, s: Setting, workBgn0: nat, v0: nat)
      returns (b: Setting, workBgn: nat, p: nat, v: nat)
      requires Valid() && At(base, s) && Passes(base, s) && workBgn0 == Time(s)
      requires 1 <= s.phase <= PHASE_MAX && s.delay == 0
      modifies this
      ensures Valid() && vfifo == old(vfifo) && delay == 0 && v == v0
      ensures p == if s.phase == 1 then 2 else s.phase
      ensures workBgn == Time(b) && Passes(base, b) && Time(b) <= Time(s)
      ensures Legal(b) && BeginsAt(base, s, b)
    {
      hide Ring;
      var tmpDelay := workBgn0 - PHASE_TAP;
      p, v := PhaseDown(s.phase, v0);
      if p == 0 {
        p, tmpDelay := 1, workBgn0;
      }
      phase := p;
      b, workBgn := s, workBgn0;
      var d := 0;
      while d <= DELAY_MAX && tmpDelay < workBgn0
        invariant d <= DELAY_MAX + 1 && vfifo == old(vfifo) && phase == p
        invariant s.phase == 1 ==> tmpDelay == workBgn0 && d == 0
        invariant s.phase > 1 ==> tmpDelay == Time(Setting(s.offset, s.phase - 1, d))
        invariant forall t: Setting :: t.offset == s.offset && t.phase + 1 == s.phase > 1 && t.delay < d ==>
                    !Passes(base, t)
      {
        delay := d;
        var ok := ReadTest(5);
        if ok {
          b, workBgn := Setting(s.offset, p, d), tmpDelay;
          break;
        }
        d := d + 1;
        tmpDelay := tmpDelay + DELAY_TAP;
      }
      p, v := PhaseUp(p, v);
      delay := 0;
    }

    // The first phase that the search for the end tests, which is one too far if
    // the beginning was at phase 1.
    function FirstTried(s: Setting): Setting {
      s.(phase := s.phase + if s.phase == 1 then 2 else 1)
    }

    // How far the end lags behind the setting it belongs to.
    function Lag(s: Setting): nat {
      if s.phase == 1 then PHASE_TAP else 0
    }

    // The search for the end takes the beginning for fuzzy when the very first
    // phase it looks at is tested and fails.
    predicate Fuzzy(base: nat, s: Setting) {
      FirstTried(s).phase <= PHASE_MAX && !Passes(base, FirstTried(s))
    }

    // Step 4a: go on in phases to the first that fails, s being the beginning and
    // p the phase step 3a left behind.
    method FindEnd(ghost base: nat, s: Setting, p0: nat, workBgn0: nat, v0: nat)
      returns (found: bool, e: Setting, workBgn: nat, workEnd: nat, v: nat)
      requires Valid() && vfifo == Ring(base + s.offset) && delay == 0
      requires Passes(base, s) && 1 <= s.phase <= PHASE_MAX && s.delay == 0 && s.offset < VFIFO_SIZE
      requires p0 == if s.phase == 1 then 2 else s.phase
      modifies this
      ensures Valid()
      ensures workBgn == if Fuzzy(base, s) then Time(FirstTried(s)) - Lag(s) else workBgn0
      ensures found ==>
                && At(base, e) && 1 <= e.phase <= PHASE_MAX && e.delay == 0 && Time(FirstTried(s)) < Time(e)
                && !Passes(base, e) && workEnd + Lag(s) == Time(e)
      ensures found ==> AllPassUpTo(base, s, e)
      ensures !found ==> AllPassUpTo(base, s, Setting(VFIFO_SIZE + 1, 0, 0))
    {
      hide EndProgress, AllPassUpTo, Fuzzy, Time, Ring;
      RingNext(base + s.offset);
      workBgn, workEnd := workBgn0, Time(s) + PHASE_TAP;
      var p, i, j := p0, s.offset, 0;
      p, v := PhaseUp(p, v0);
      e := Setting(if p == 0 then s.offset + 1 else s.offset, p, 0);
      EndStarts(base, s, e, workBgn);
      while i < VFIFO_SIZE + 1
        invariant delay == e.delay == 0 && e.phase <= PHASE_MAX && Valid() && vfifo == Ring(base + e.offset)
        invariant EndProgress(base, s, e, j, workBgn0, workBgn, workEnd)
        invariant i <= VFIFO_SIZE + 1 && e.offset >= i && (i > s.offset ==> e.phase == 0)
        invariant i > s.offset ==>
                    workBgn == if Fuzzy(base, s) then Time(FirstTried(s)) - Lag(s) else workBgn0
        decreases VFIFO_SIZE + 1 - i
      {
        found, e, j, workBgn, workEnd := FindEndInTurn(base, s, e, j, workBgn0, workBgn, workEnd);
        if found {
          return;
        }
        EndTurns(base, s, e, j, workBgn0, workBgn, workEnd);
        RingNext(base + e.offset);
        v := IncrVfifo(v);
        e := e.(offset := e.offset + 1, phase := 0);
        i := i + 1;
      }
      found := false;
      NeverEnds(base, s, e, j, workBgn0, workBgn, workEnd);
    }

    // The position the VFIFO was pushed to fails, and comes round again: there is
    // always an end to see.
    lemma EndIsInSight(start: nat, base: nat, s: Setting)
      requires SecondFailing(start, base, 1, 0) && s.offset < VFIFO_SIZE && 1 <= s.phase <= PHASE_MAX && s.delay == 0
      ensures !AllPassUpTo(base, s, Setting(VFIFO_SIZE + 1, 0, 0))
    {
      var again := Setting(VFIFO_SIZE, 1, 0);
      RingTurn(base);
      assert !Passes(base, again);
      assert Time(s) + Lag(s) < Time(again) && Time(FirstTried(s)) < Time(again);
    }

    lemma NeverEnds(base: nat, s: Setting, e: Setting, j: nat, workBgn0: nat, workBgn: nat, workEnd: nat)
      requires EndProgress(base, s, e, j, workBgn0, workBgn, workEnd) && e.offset >= VFIFO_SIZE + 1
      ensures AllPassUpTo(base, s, Setting(VFIFO_SIZE + 1, 0, 0))
    {
      hide Ring, Fuzzy;
    }

    // One VFIFO turn of step 4a, from e; j counts the phases looked at.
    method FindEndInTurn(ghost base: nat, s: Setting, e0: Setting, j0: nat,
                         ghost workBgn0: nat, workBgn1: nat, workEnd1: nat)
      returns (found: bool, e: Setting, j: nat, workBgn: nat, workEnd: nat)
      requires Valid() && vfifo == Ring(base + e0.offset) && delay == 0
      requires Passes(base, s) && 1 <= s.phase <= PHASE_MAX && s.delay == 0
      requires e0.delay == 0 && e0.phase <= PHASE_MAX
      requires EndProgress(base, s, e0, j0, workBgn0, workBgn1, workEnd1)
      modifies this`phase
      ensures j > 0 && e.delay == 0 && e.offset == e0.offset
      ensures found ==>
                && At(base, e) && 1 <= e.phase <= PHASE_MAX && !Passes(base, e)
                && Time(FirstTried(s)) < Time(e) && workEnd + Lag(s) == Time(e)
                && workBgn == if Fuzzy(base, s) then Time(FirstTried(s)) - Lag(s) else workBgn0
      ensures found ==> AllPassUpTo(base, s, e)
      ensures !found ==>
                e.phase == PHASE_MAX + 1 && EndProgress(base, s, e, j, workBgn0, workBgn, workEnd)
    {
      hide EndProgress, AllPassUpTo, Fuzzy, Time, Ring;
      e, j, workBgn, workEnd := e0, j0, workBgn1, workEnd1;
      while e.phase <= PHASE_MAX
        invariant e.delay == 0 && e.phase <= PHASE_MAX + 1 && e.offset == e0.offset
        invariant EndProgress(base, s, e, j, workBgn0, workBgn, workEnd)
        invariant e.phase > PHASE_MAX ==> j > 0
        decreases PHASE_MAX + 1 - e.phase
      {
        j := j + 1;
        if e.phase == 0 {
          EndPasses(base, s, e, j - 1, workBgn0, workBgn, workEnd);
        } else {
          phase := e.phase;
          var ok := ReadTest(5);
          if !ok && j == 1 {
            EndIsFuzzy(base, s, e, workBgn0, workBgn, workEnd);
            workBgn := workEnd;
          } else if !ok {
            EndIsFound(base, s, e, j - 1, workBgn0, workBgn, workEnd);
            found := true;
            return;
          } else {
            EndPasses(base, s, e, j - 1, workBgn0, workBgn, workEnd);
          }
        }
        e := e.(phase := e.phase + 1);
        workEnd := workEnd + PHASE_TAP;
      }
      found := false;
    }

    // What the search for the end knows when it is about to look at e, having
    // looked at j phases.
    ghost predicate EndProgress(base: nat, s: Setting, e: Setting, j: nat,
                                workBgn0: nat, workBgn: nat, workEnd: nat)
    {
      && e.delay == 0 && Time(s) < Time(e) && workEnd + Lag(s) == Time(e)
      && (if j == 0 then Time(e) == Time(FirstTried(s)) && workBgn == workBgn0
                         && (e.phase == 0 <==> FirstTried(s).phase > PHASE_MAX)
          else Time(FirstTried(s)) < Time(e)
               && workBgn == if Fuzzy(base, s) then Time(FirstTried(s)) - Lag(s) else workBgn0)
      && AllPassUpTo(base, s, e)
    }

    // Every phase that was tested on the way from s to e passed, but for the first
    // one if that made the beginning fuzzy.
    ghost predicate AllPassUpTo(base: nat, s: Setting, e: Setting) {
      var first := if Fuzzy(base, s) then Time(FirstTried(s)) else Time(s) + Lag(s);
      forall t: Setting :: 1 <= t.phase <= PHASE_MAX && t.delay == 0 && first < Time(t) < Time(e) ==>
        Passes(base, t)
    }

    lemma EndStarts(base: nat, s: Setting, e: Setting, workBgn0: nat)
      requires 1 <= s.phase <= PHASE_MAX && s.delay == 0 && e.delay == 0
      requires if FirstTried(s).phase > PHASE_MAX then e.offset == s.offset + 1 && e.phase == 0
               else e == FirstTried(s)
      ensures EndProgress(base, s, e, 0, workBgn0, workBgn0, Time(s) + PHASE_TAP)
    {
    }

    lemma EndTurns(base: nat, s: Setting, e: Setting, j: nat, workBgn0: nat, workBgn: nat, workEnd: nat)
      requires EndProgress(base, s, e, j, workBgn0, workBgn, workEnd) && e.phase == PHASE_MAX + 1 && j > 0
      requires 1 <= s.phase <= PHASE_MAX
      ensures EndProgress(base, s, e.(offset := e.offset + 1, phase := 0), j, workBgn0, workBgn, workEnd)
      ensures workBgn == if Fuzzy(base, s) then Time(FirstTried(s)) - Lag(s) else workBgn0
    {
    }

    // Two phase settings at the same time are the same setting.
    lemma SameTime(s: Setting, t: Setting)
      requires s.phase <= PHASE_MAX && t.phase <= PHASE_MAX && s.delay == t.delay && Time(s) == Time(t)
      ensures s == t
    {
    }

    // Of the phase settings, e alone has a time from its own up to that of the next.
    lemma SamePhaseTap(e: Setting, t: Setting)
      requires e.phase <= PHASE_MAX && t.phase <= PHASE_MAX && e.delay == t.delay == 0
      requires Time(e) <= Time(t) < Time(e.(phase := e.phase + 1))
      ensures t == e
    {
      assert 8 * e.offset + e.phase == 8 * t.offset + t.phase;
    }

    lemma AllPassNext(base: nat, s: Setting, e: Setting)
      requires AllPassUpTo(base, s, e) && e.phase <= PHASE_MAX && e.delay == 0
      requires e.phase == 0 || Passes(base, e)
      ensures AllPassUpTo(base, s, e.(phase := e.phase + 1))
    {
      hide Fuzzy, Passes, FirstTried, Lag, Time;
      forall t: Setting | 1 <= t.phase <= PHASE_MAX && t.delay == 0
                          && Time(e) <= Time(t) < Time(e.(phase := e.phase + 1))
        ensures t == e
      {
        SamePhaseTap(e, t);
      }
    }

    // One phase looked at: it passed or was skipped.
    lemma EndPasses(base: nat, s: Setting, e: Setting, j: nat, workBgn0: nat, workBgn: nat, workEnd: nat)
      requires EndProgress(base, s, e, j, workBgn0, workBgn, workEnd) && e.phase <= PHASE_MAX
      requires 1 <= s.phase <= PHASE_MAX && s.delay == 0
      requires e.phase == 0 || Passes(base, e)
      ensures EndProgress(base, s, e.(phase := e.phase + 1), j + 1, workBgn0, workBgn, workEnd + PHASE_TAP)
    {
      hide Ring, AllPassUpTo, Passes;
      AllPassNext(base, s, e);
      if e.phase > 0 && Time(e) == Time(FirstTried(s)) && FirstTried(s).phase <= PHASE_MAX {
        SameTime(e, FirstTried(s));
      }
    }

    // It failed as the first one: the beginning moves here.
    lemma EndIsFuzzy(base: nat, s: Setting, e: Setting, workBgn0: nat, workBgn: nat, workEnd: nat)
      requires EndProgress(base, s, e, 0, workBgn0, workBgn, workEnd) && 1 <= e.phase <= PHASE_MAX
      requires 1 <= s.phase <= PHASE_MAX && s.delay == 0 && !Passes(base, e)
      ensures EndProgress(base, s, e.(phase := e.phase + 1), 1, workBgn0, workEnd, workEnd + PHASE_TAP)
    {
      hide Ring;
      SameTime(e, FirstTried(s));
    }

    // It failed later: this is the end.
    lemma EndIsFound(base: nat, s: Setting, e: Setting, j: nat, workBgn0: nat, workBgn: nat, workEnd: nat)
      requires EndProgress(base, s, e, j, workBgn0, workBgn, workEnd) && 1 <= e.phase <= PHASE_MAX && j > 0
      requires 1 <= s.phase <= PHASE_MAX && s.delay == 0
      ensures Time(FirstTried(s)) < Time(e) && workEnd + Lag(s) == Time(e)
      ensures workBgn == if Fuzzy(base, s) then Time(FirstTried(s)) - Lag(s) else workBgn0
      ensures AllPassUpTo(base, s, e)
    {
      hide Ring;
    }

    // The phase before the end passes, unless that is the one that made the beginning
    // fuzzy; it is the first one tried or a later one, or s itself.
    lemma EndIsPreceded(base: nat, s: Setting, e: Setting)
      requires 1 <= s.phase <= PHASE_MAX && s.delay == 0 && Passes(base, s)
      requires 1 <= e.phase <= PHASE_MAX && e.delay == 0
      requires Time(FirstTried(s)) < Time(e) && AllPassUpTo(base, s, e)
      ensures e.offset > 0 || e.phase > 1
      ensures AllPassUpTo(base, s, PhaseBefore(e))
      ensures FirstTried(s).phase <= PHASE_MAX ==> Time(FirstTried(s)) <= Time(PhaseBefore(e))
      ensures Passes(base, PhaseBefore(e)) || (Fuzzy(base, s) && PhaseBefore(e) == FirstTried(s))
    {
      hide Ring, Passes, Time;
      EndIsLater(base, s, e);
      TriedTime(s);
      if Time(PhaseBefore(e)) <= Time(s) {
        SameTime(PhaseBefore(e), s);
      } else if FirstTried(s).phase <= PHASE_MAX && Time(PhaseBefore(e)) == Time(FirstTried(s)) {
        SameTime(PhaseBefore(e), FirstTried(s));
      }
    }

    lemma TriedTime(s: Setting)
      ensures Time(FirstTried(s)) == Time(s) + Lag(s) + PHASE_TAP
    {
    }

    lemma EndIsLater(base: nat, s: Setting, e: Setting)
      requires 1 <= s.phase <= PHASE_MAX && 1 <= e.phase <= PHASE_MAX
      requires s.delay == 0 && e.delay == 0 && Time(FirstTried(s)) < Time(e)
      ensures e.offset > 0 || e.phase > 1
      ensures Time(s) + Lag(s) <= Time(PhaseBefore(e)) < Time(e)
      ensures FirstTried(s).phase <= PHASE_MAX ==> Time(FirstTried(s)) <= Time(PhaseBefore(e))
    {
    }

    // Step 5a: back off from the failing phase e.
    method StepBack(ghost base: nat, ghost lag: nat, e: Setting, workEnd0: nat, v0: nat)
      returns (x: Setting, workEnd: nat, v: nat)
      requires Valid() && At(base, e) && 1 <= e.phase <= PHASE_MAX && e.delay == 0
      requires (e.offset > 0 || e.phase > 1) && lag <= PHASE_TAP && workEnd0 + lag == Time(e)
      modifies this
      ensures Valid() && x == PhaseBefore(e) && At(base, x) && workEnd + lag == Time(x)
    {
      hide Ring;
      if e.offset > 0 {
        RingNext(base + e.offset - 1);
      }
      var p := e.phase;
      workEnd := workEnd0;
      if p == 1 {
        p := 0;
        workEnd := workEnd - PHASE_TAP;
      }
      p, v := PhaseDown(p, v0);
      workEnd := workEnd - PHASE_TAP;
      phase := p;
      if e.phase == 1 {
        RingBack(vfifo, base + e.offset - 1);
        RingStart(vfifo);
      }
      x := PhaseBefore(e);
    }

    // Step 5b: go on in delays from x to the first that fails, or off the chain,
    // and back one.
    method FindDelayEnd(ghost base: nat, x: Setting, workEnd0: nat) returns (d: nat, workEnd: int)
      requires Valid() && vfifo == Ring(base + x.offset) && phase == x.phase && x.delay <= DELAY_MAX
      modifies this`delay
      ensures x.delay <= d <= DELAY_MAX + 1
      ensures forall t: Setting :: t.offset == x.offset && t.phase == x.phase && x.delay <= t.delay < d ==>
                Passes(base, t)
      ensures d <= DELAY_MAX ==> !Passes(base, x.(delay := d))
      ensures workEnd == workEnd0 + DELAY_TAP * (d - x.delay) - if d == 0 then 0 else DELAY_TAP
    {
      d, workEnd := x.delay, workEnd0;
      while d <= DELAY_MAX
        invariant x.delay <= d <= DELAY_MAX + 1 && workEnd == workEnd0 + DELAY_TAP * (d - x.delay)
        invariant forall t: Setting :: t.offset == x.offset && t.phase == x.phase && x.delay <= t.delay < d ==>
                    Passes(base, t)
      {
        delay := d;
        var ok := ReadTest(5);
        if !ok {
          break;
        }
        d := d + 1;
        workEnd := workEnd + DELAY_TAP;
      }
      if d != 0 {
        workEnd := workEnd - DELAY_TAP;
      }
    }

    // The window measured from the first passing setting s: the times of two settings
    // that pass.
    ghost predicate Measured(base: nat, s: Setting, w: Window) {
      && w.workBgn == Time(w.begin) && Passes(base, w.begin) && Passes(base, w.end)
      && Legal(w.begin) && BeginsAt(base, s, w.begin) && EndMeasured(base, s, w)
    }

    // The window when the first phase the search for the end tried fails: the
    // beginning moves there, less the lag.
    ghost predicate BeginMoved(base: nat, s: Setting, w: Window) {
      && s.delay == 0 && Fuzzy(base, s) && w.workBgn + Lag(s) == Time(FirstTried(s))
      && EndMeasured(base, s, w)
    }

    // b is the first delay that passes in the phase before s, or s if there is none
    // before s or no phase to back off to.
    ghost predicate BeginsAt(base: nat, s: Setting, b: Setting) {
      if b == s then
        s.delay == 0 && s.phase > 1 ==>
          forall t: Setting :: t.offset == s.offset && t.phase == s.phase - 1 && Time(t) < Time(s) ==> !Passes(base, t)
      else
        && s.delay == 0 && s.phase > 1 && b.offset == s.offset && b.phase == s.phase - 1 && Time(b) < Time(s)
        && forall t: Setting :: t.offset == b.offset && t.phase == b.phase && t.delay < b.delay ==> !Passes(base, t)
    }

    // The end: the last passing delay of the last phase that passes.  Only if the
    // phase that made the beginning fuzzy is the last one before another failure is
    // the end that failing phase itself.  The time kept lags a phase behind when s is
    // at phase 1 and delay 0.
    ghost predicate EndMeasured(base: nat, s: Setting, w: Window) {
      && w.workEnd + EndLag(s) == Time(w.end) && Legal(w.end)
      && (if Passes(base, w.end) then LastPassingDelay(base, s, w.end) else Fuzzy(base, s) && w.end == FirstTried(s))
      && if s.delay == 0 then LastPhase(base, s, w.end.(delay := 0))
         else w.end.offset == s.offset && w.end.phase == s.phase && s.delay <= w.end.delay
    }

    // Every delay up to that of e passes, and the next one fails or is off the chain.
    ghost predicate LastPassingDelay(base: nat, s: Setting, e: Setting) {
      && (e.delay == DELAY_MAX || !Passes(base, e.(delay := e.delay + 1)))
      && forall t: Setting :: t.offset == e.offset && t.phase == e.phase && s.delay <= t.delay <= e.delay ==>
           Passes(base, t)
    }

    // Every phase tested between s and e passes, and the phase after e fails.
    ghost predicate LastPhase(base: nat, s: Setting, e: Setting) {
      && AllPassUpTo(base, s, e) && !Passes(base, PhaseAfter(e))
      && (FirstTried(s).phase <= PHASE_MAX ==> Time(FirstTried(s)) <= Time(e))
    }

    // The hardware is at the VFIFO position and phase of the end, and d is the first
    // delay past it.
    ghost predicate StandsAtEnd(base: nat, w: Window, d: nat)
      reads this
    {
      && vfifo == Ring(base + w.end.offset) && phase == w.end.phase
      && d == FirstPast(base, w)
    }

    function FirstPast(base: nat, w: Window): nat {
      if Passes(base, w.end) then w.end.delay + 1 else 0
    }

    function EndLag(s: Setting): nat {
      if s.delay == 0 then Lag(s) else 0
    }

    // Steps 3a to 5b, for a window that covers a phase: s has delay 0.
    method MeasureFromPhase(ghost base: nat, s: Setting, workBgn0: nat, v0: nat)
      returns (found: bool, w: Window, d: nat, v: nat)
      requires Valid() && At(base, s) && Passes(base, s) && workBgn0 == Time(s)
      requires 1 <= s.phase <= PHASE_MAX && s.delay == 0 && s.offset < VFIFO_SIZE
      modifies this
      ensures Valid()
      ensures found ==>
                && 0 < w.workBgn <= w.workEnd && d <= DELAY_MAX + 1 && StandsAtEnd(base, w, d)
                && if Fuzzy(base, s) then BeginMoved(base, s, w) else Measured(base, s, w)
      ensures !found ==> AllPassUpTo(base, s, Setting(VFIFO_SIZE + 1, 0, 0))
    {
      hide AllPassUpTo, Measured, BeginMoved, Ring, BeginsAt;
      var b, workBgn, p, e, workEnd;
      b, workBgn, p, v := RefineBegin(base, s, workBgn0, v0);
      found, e, workBgn, workEnd, v := FindEnd(base, s, p, workBgn, v);
      if !found {
        w, d := Window(b, b, workBgn, workBgn), 0;
        return;
      }
      w, d, v := MeasureEnd(base, s, b, e, workBgn, workEnd, v);
    }

    // Steps 5a and 5b of that, e being the phase that fails.
    method MeasureEnd(ghost base: nat, s: Setting, b: Setting, e: Setting, workBgn: nat, workEnd0: nat, v0: nat)
      returns (w: Window, d: nat, v: nat)
      requires Valid() && At(base, e) && !Passes(base, e) && 1 <= e.phase <= PHASE_MAX && e.delay == 0
      requires 1 <= s.phase <= PHASE_MAX && s.delay == 0 && Time(FirstTried(s)) < Time(e) && Passes(base, s)
      requires workEnd0 + Lag(s) == Time(e) && Passes(base, b) && Time(b) <= Time(s)
      requires workBgn == if Fuzzy(base, s) then Time(FirstTried(s)) - Lag(s) else Time(b)
      requires AllPassUpTo(base, s, e) && Legal(b) && BeginsAt(base, s, b)
      modifies this
      ensures Valid() && workBgn == w.workBgn <= w.workEnd && d <= DELAY_MAX + 1 && StandsAtEnd(base, w, d)
      ensures if Fuzzy(base, s) then BeginMoved(base, s, w) else Measured(base, s, w)
    {
      hide Ring, AllPassUpTo, BeginsAt, EndMeasured;
      EndIsLater(base, s, e);
      EndIsPreceded(base, s, e);
      var x, workEnd, end;
      x, workEnd, v := StepBack(base, Lag(s), e, workEnd0, v0);
      d, end := FindDelayEnd(base, x, workEnd);
      w := Window(b, x.(delay := if d == 0 then 0 else d - 1), workBgn, end);
      DelaysMeasured(base, s, w, e, d);
    }

    lemma DelaysMeasured(base: nat, s: Setting, w: Window, e: Setting, d: nat)
      requires (e.offset > 0 || e.phase > 1) && 1 <= e.phase <= PHASE_MAX && e.delay == 0 && s.delay == 0
      requires AllPassUpTo(base, s, PhaseBefore(e)) && !Passes(base, e)
      requires Passes(base, PhaseBefore(e)) || (Fuzzy(base, s) && PhaseBefore(e) == FirstTried(s))
      requires FirstTried(s).phase <= PHASE_MAX ==> Time(FirstTried(s)) <= Time(PhaseBefore(e))
      requires forall t: Setting ::
                 t.offset == PhaseBefore(e).offset && t.phase == PhaseBefore(e).phase && t.delay < d ==> Passes(base, t)
      requires d <= DELAY_MAX ==> !Passes(base, PhaseBefore(e).(delay := d))
      requires d <= DELAY_MAX + 1 && w.end == PhaseBefore(e).(delay := if d == 0 then 0 else d - 1)
      requires w.workEnd + Lag(s) == Time(PhaseBefore(e)) + if d == 0 then 0 else DELAY_TAP * (d - 1)
      ensures EndMeasured(base, s, w) && (Passes(base, w.end) || Fuzzy(base, s))
    {
      hide Ring, AllPassUpTo, Fuzzy;
      assert PhaseAfter(PhaseBefore(e)) == e;
      assert w.end.(delay := 0) == PhaseBefore(e);
    }

    // Steps 3-5b, for a window narrower than a phase: s has a delay.
    method MeasureFromDelay(ghost base: nat, s: Setting, workBgn: nat)
      returns (w: Window, d: nat)
      requires Valid() && At(base, s) && Passes(base, s) && workBgn == Time(s)
      requires 1 <= s.phase <= PHASE_MAX && 0 < s.delay <= DELAY_MAX
      modifies this`delay
      ensures 0 < w.workBgn <= w.workEnd && s.delay < d <= DELAY_MAX + 1 && Measured(base, s, w)
      ensures StandsAtEnd(base, w, d)
    {
      hide Ring;
      var end;
      d, end := FindDelayEnd(base, s, workBgn);
      assert Passes(base, s.(delay := s.delay));
      w := Window(s, s.(delay := d - 1), workBgn, end);
    }

    // rw_mgr_mem_calibrate_vfifo_find_dqs_en_phase.  base is where the VFIFO stood
    // when the search for the window began, s the first setting that passed.
    method FindDqsEnPhase() returns (outcome: Outcome, w: Window, ghost base: nat, ghost s: Setting)
      requires Valid()
      modifies this
      ensures Valid()
      ensures outcome != NoFailingRead ==> SecondFailing(old(vfifo), base, 1, 0)
      ensures outcome == NoFailingRead ==> FailuresBelow(old(vfifo), VFIFO_SIZE, 1, 0) <= 1
      ensures outcome != NoEnd
      ensures outcome == NoBegin ==>
                forall t: Setting :: Searched(t, DelaysPerPhase()) ==> !Passes(base, t)
      ensures outcome.Centred? || outcome.NoCentre? ==>
                && Searched(s, DelaysPerPhase()) && Passes(base, s)
                && (forall t: Setting :: Searched(t, DelaysPerPhase()) && Earlier(t, s) ==> !Passes(base, t))
                && 0 < w.workBgn <= w.workEnd
                && (if s.delay == 0 && Fuzzy(base, s) then BeginMoved(base, s, w) else Measured(base, s, w))
                && IsCentre(WithinCycle((w.workBgn + w.workEnd) / 2), phase, delay)
      ensures outcome.NoCentre? ==> forall x :: 0 <= x < VFIFO_SIZE ==> !passes(x, phase, delay)
      ensures outcome.Centred? ==>
                && TestPasses() && outcome.dtapsPerPtap <= DELAY_MAX
                && Counted(VfifoBack(Ring(base + w.end.offset), w.end.phase), PhaseBack(w.end.phase),
                           FirstPast(base, w), DelaysPerPhase(), outcome.dtapsPerPtap)
    {
      hide Measured, BeginMoved, IsCentre, Earlier, Ring, Fuzzy, Passes, AllPassUpTo, SecondFailing, Counted;
      hide VfifoBack, PhaseBack, WithinCycle;
      delay, phase := 0, 1;
      var taps := StaticDelaysPerPhase();
      var found, v := PushUntilFailing();
      base, s, w := vfifo, Setting(0, 0, 0), Window(Setting(0, 0, 0), Setting(0, 0, 0), 0, 0);
      if !found {
        return NoFailingRead, w, base, s;
      }
      var first, workBgn, d;
      found, first, workBgn, v := FindBegin(taps, v);
      s := first;
      if !found {
        return NoBegin, w, base, s;
      }
      if first.delay == 0 {
        found, w, d, v := MeasureFromPhase(base, first, workBgn, v);
        if !found {
          EndIsInSight(old(vfifo), base, first);
          return NoEnd, w, base, s;
        }
      } else {
        w, d := MeasureFromDelay(base, first, workBgn);
      }
      var dtapsPerPtap;
      dtapsPerPtap, v := CountDelaysPerPhase(phase, d, taps, v);
      var workMid := ReduceCentre((w.workBgn + w.workEnd) / 2);
      SetCentre(workMid);
      found, v := PushUntilPassing(v);
      outcome := if found then Centred(dtapsPerPtap) else NoCentre;
    }

    // At this VFIFO position and phase, from delay d0 up, f is the first that passes
    // and g the first after it that fails.
    ghost predicate IsDrop(vf: nat, p: nat, d0: nat, f: nat, g: nat) {
      && d0 <= f < g <= DELAY_MAX
      && (forall k :: d0 <= k < f ==> !passes(vf, p, k))
      && (forall k :: f <= k < g ==> passes(vf, p, k))
      && !passes(vf, p, g)
    }

    // taps is the distance from d0 to a drop at this VFIFO position and phase, or
    // initial if there is no drop.
    ghost predicate Counted(vf: nat, p: nat, d0: nat, initial: nat, taps: nat) {
      && (forall f: nat, g: nat :: IsDrop(vf, p, d0, f, g) ==> taps == g - d0)
      && (taps != initial ==> exists f: nat, g: nat :: IsDrop(vf, p, d0, f, g) && taps == g - d0)
    }

    // For tracking: back off a phase and measure how many delays make up for it.
    // The static count stays unless a passing and then a failing delay is found.
    method CountDelaysPerPhase(p0: nat, d0: nat, initial: nat, v0: nat) returns (taps: nat, v: nat)
      requires Valid() && d0 <= DELAY_MAX + 1 && initial <= DELAY_MAX
      modifies this
      ensures Valid() && taps <= DELAY_MAX
      ensures vfifo == VfifoBack(old(vfifo), p0) && phase == PhaseBack(p0)
      ensures Counted(vfifo, phase, d0, initial, taps)
    {
      hide Ring;
      var p;
      if p0 == 0 || p0 == 1 {
        p := PHASE_MAX;
        v := DecrVfifo(v0);
        BackOnRing(vfifo, old(vfifo));
      } else {
        p, v := p0 - 1, v0;
      }
      phase := p;
      taps := initial;
      var d, foundPassing := d0, false;
      while d <= DELAY_MAX
        invariant d0 <= d <= DELAY_MAX + 1 && phase == p && vfifo < VFIFO_SIZE
        invariant !foundPassing && forall k :: d0 <= k < d ==> !passes(vfifo, phase, k)
        invariant vfifo == VfifoBack(old(vfifo), p0)
      {
        delay := d;
        var ok := ReadTest(1);
        if ok {
          foundPassing := true;
          break;
        }
        d := d + 1;
      }
      if foundPassing {
        ghost var f := d;
        d := d + 1;
        while d <= DELAY_MAX
          invariant d0 < d <= DELAY_MAX + 1 && phase == p && vfifo < VFIFO_SIZE
          invariant d0 <= f < d && forall k :: f <= k < d ==> passes(vfifo, phase, k)
          invariant forall k :: d0 <= k < f ==> !passes(vfifo, phase, k)
          invariant taps == initial && vfifo == VfifoBack(old(vfifo), p0)
        {
          delay := d;
          var ok := ReadTest(1);
          if !ok {
            taps := d - d0;
            assert IsDrop(vfifo, phase, d0, f, d);
            OneDrop(vfifo, phase, d0, f, d);
            return;
          }
          d := d + 1;
        }
        NoDropIfAllPass(vfifo, phase, d0, f);
      } else {
        NoDropIfAllFail(vfifo, phase, d0);
      }
    }

    lemma OneDrop(vf: nat, p: nat, d0: nat, f: nat, g: nat)
      requires IsDrop(vf, p, d0, f, g)
      ensures forall f': nat, g': nat :: IsDrop(vf, p, d0, f', g') ==> g' == g
    {
      forall f': nat, g': nat | IsDrop(vf, p, d0, f', g')
        ensures g' == g
      {
        assert passes(vf, p, f) && passes(vf, p, f');
        assert f == f';
      }
    }

    lemma NoDropIfAllPass(vf: nat, p: nat, d0: nat, f: nat)
      requires d0 <= f <= DELAY_MAX && forall k :: f <= k <= DELAY_MAX ==> passes(vf, p, k)
      requires forall k :: d0 <= k < f ==> !passes(vf, p, k)
      ensures forall f': nat, g': nat :: !IsDrop(vf, p, d0, f', g')
    {
      forall f': nat, g': nat
        ensures !IsDrop(vf, p, d0, f', g')
      {
        assert f' < g' ==> (d0 <= f' < f ==> !passes(vf, p, f'));
      }
    }

    lemma NoDropIfAllFail(vf: nat, p: nat, d0: nat)
      requires forall k :: d0 <= k <= DELAY_MAX ==> !passes(vf, p, k)
      ensures forall f: nat, g: nat :: !IsDrop(vf, p, d0, f, g)
    {
      forall f: nat, g: nat
        ensures !IsDrop(vf, p, d0, f, g)
      {
        assert d0 <= f <= DELAY_MAX ==> !passes(vf, p, f);
      }
    }

    // Step 6, first half: take whole VFIFO cycles off the centre.
    method ReduceCentre(mid: nat) returns (workMid: nat)
      requires mid > 0
      ensures workMid == WithinCycle(mid)
    {
      var tmpDelay, p := 0, 0;
      while p <= PHASE_MAX
        invariant p <= PHASE_MAX + 1 && tmpDelay == PHASE_TAP * p
      {
        p := p + 1;
        tmpDelay := tmpDelay + PHASE_TAP;
      }
      workMid := mid;
      while workMid > tmpDelay
        invariant workMid > 0 && WithinCycle(workMid) == WithinCycle(mid)
      {
        workMid := workMid - tmpDelay;
      }
    }

    // Step 6, second half: as a phase and a delay.
    method SetCentre(workMid: nat)
      requires 0 < workMid <= CYCLE
      modifies this`phase, this`delay
      ensures IsCentre(workMid, phase, delay)
    {
      var tmpDelay, p := 0, 0;
      while p <= PHASE_MAX && tmpDelay < workMid
        invariant p <= PHASE_MAX + 1 && tmpDelay == PHASE_TAP * p
        invariant p > 0 ==> PHASE_TAP * (p - 1) < workMid
      {
        p := p + 1;
        tmpDelay := tmpDelay + PHASE_TAP;
      }
      tmpDelay := tmpDelay - PHASE_TAP;
      var d := 0;
      while d <= DELAY_MAX && tmpDelay < workMid
        invariant d <= DELAY_MAX + 1 && tmpDelay == PHASE_TAP * (p - 1) + DELAY_TAP * d
        invariant tmpDelay < workMid + DELAY_TAP
      {
        d := d + 1;
        tmpDelay := tmpDelay + DELAY_TAP;
      }
      if p == 1 {
        p, d := 2, 0;
      }
      phase, delay := p - 1, d;
    }

    // Step 7: push the VFIFO until the centre passes.
    method PushUntilPassing(v0: nat) returns (ok: bool, v: nat)
      requires Valid()
      modifies this`vfifo
      ensures Valid() && (ok ==> TestPasses())
      ensures ok <==> exists x :: 0 <= x < VFIFO_SIZE && passes(x, phase, delay)
    {
      hide Ring;
      RingStart(vfifo);
      v := v0;
      for i := 0 to VFIFO_SIZE
        invariant Valid() && vfifo == Ring(old(vfifo) + i)
        invariant forall k :: 0 <= k < i ==> !Passes(old(vfifo), Setting(k, phase, delay))
      {
        ok := ReadTest(1);
        if ok {
          return;
        }
        RingNext(old(vfifo) + i);
        v := IncrVfifo(v);
      }
      ok := false;
      forall x | 0 <= x < VFIFO_SIZE
        ensures !passes(x, phase, delay)
      {
        var k := RingDistance(old(vfifo), x);
        assert !Passes(old(vfifo), Setting(k, phase, delay));
      }
    }
  }

  // Times tell legal settings apart.
  lemma TimeIsInjective(s: Setting, t: Setting)
    requires Legal(s) && Legal(t) && Time(s) == Time(t)
    ensures s == t
  {
    var n := (8 * s.offset + s.phase) - (8 * t.offset + t.phase);
    assert PHASE_TAP * n == DELAY_TAP * (t.delay - s.delay);
    assert -3 < n < 3;
  }

  // What the whole search says of its window.
  ghost predicate WindowOf(phy: DqsEnPhy, base: nat, s: Setting, w: Window) {
    if s.delay == 0 && phy.Fuzzy(base, s) then phy.BeginMoved(base, s, w) else phy.Measured(base, s, w)
  }

  // The begin time belongs to a setting that passes unless the beginning was fuzzy.
  // Then it is the time of the phase that failed or, when the search began at phase
  // 1, of the phase before that one, which was never tried and may pass or not.
  lemma BeginPassesUnlessFuzzy(phy: DqsEnPhy, base: nat, s: Setting, w: Window)
    requires 1 <= s.phase <= PHASE_MAX && WindowOf(phy, base, s, w)
    ensures (exists t: Setting :: Legal(t) && Time(t) == w.workBgn && phy.Passes(base, t))
            <==> !(s.delay == 0 && phy.Fuzzy(base, s)) || (s.phase == 1 && phy.Passes(base, s.(phase := 2)))
  {
    if s.delay == 0 && phy.Fuzzy(base, s) {
      var b := if s.phase == 1 then s.(phase := 2) else phy.FirstTried(s);
      assert Legal(b) && Time(b) == w.workBgn;
      forall t: Setting | Legal(t) && Time(t) == w.workBgn
        ensures t == b
      {
        TimeIsInjective(t, b);
      }
    }
  }

  // A setting that passes with the next delay failing, or at the end of the chain.
  ghost predicate IsEdge(phy: DqsEnPhy, base: nat, t: Setting) {
    && Legal(t) && phy.Passes(base, t)
    && (t.delay == DELAY_MAX || !phy.Passes(base, t.(delay := t.delay + 1)))
  }

  // The end time belongs to a last passing delay, unless the search began at phase 1
  // and delay 0: then it does so only if the phase before the end has its last
  // passing delay at the very same tap.
  lemma EndIsEdgeUnlessPhaseOne(phy: DqsEnPhy, base: nat, s: Setting, w: Window)
    requires 1 <= s.phase <= PHASE_MAX && phy.Measured(base, s, w)
    ensures (exists t: Setting :: IsEdge(phy, base, t) && Time(t) == w.workEnd)
            <==> s.phase > 1 || s.delay > 0
                 || (w.end.phase > 1 && IsEdge(phy, base, w.end.(phase := w.end.phase - 1)))
  {
    if s.phase > 1 || s.delay > 0 {
      assert IsEdge(phy, base, w.end);
    } else {
      forall t: Setting | Legal(t) && Time(t) == w.workEnd
        ensures w.end.phase > 1 && t == w.end.(phase := w.end.phase - 1)
      {
        PhaseEarlier(t, w.end);
      }
      if w.end.phase > 1 {
        assert Time(w.end.(phase := w.end.phase - 1)) == w.workEnd;
      }
    }
  }

  // A legal setting one phase tap earlier is the one in the phase before, and there is
  // none before phase 1.
  lemma PhaseEarlier(t: Setting, e: Setting)
    requires Legal(t) && Legal(e) && Time(t) + PHASE_TAP == Time(e)
    ensures e.phase > 1 && t == e.(phase := e.phase - 1)
  {
    var n := (8 * e.offset + e.phase) - (8 * t.offset + t.phase) - 1;
    assert PHASE_TAP * n == DELAY_TAP * (t.delay - e.delay);
    assert -3 < n < 3;
    assert n == 0;
  }

  // Every phase between the first passing setting and that of the end passes, except
  // that a search begun at phase 1 does not look at phase 2.
  lemma WindowIsSolidUnlessPhaseTwoFails(phy: DqsEnPhy, base: nat, s: Setting, w: Window)
    requires 1 <= s.phase <= PHASE_MAX && s.delay == 0 && !phy.Fuzzy(base, s) && phy.Measured(base, s, w)
    ensures (forall t: Setting ::
               1 <= t.phase <= PHASE_MAX && t.delay == 0 && Time(s) < Time(t) < Time(w.end.(delay := 0)) ==>
                 phy.Passes(base, t))
            <==> s.phase > 1 || phy.Passes(base, s.(phase := 2))
  {
    hide Ring, Time;
    phy.TriedTime(s);
    forall t: Setting | 1 <= t.phase <= PHASE_MAX && t.delay == 0 && Time(s) < Time(t) < Time(w.end.(delay := 0))
      ensures phy.Passes(base, t) || (s.phase == 1 && t == s.(phase := 2))
    {
      if Time(t) <= Time(s) + phy.Lag(s) {
        UpToPhaseTwo(s, t);
      }
    }
    if s.phase == 1 {
      PhaseTwoIsNext(s);
      assert Time(s) < Time(s.(phase := 2)) < Time(w.end.(delay := 0));
    }
  }

  lemma UpToPhaseTwo(s: Setting, t: Setting)
    requires 1 <= s.phase <= PHASE_MAX && 1 <= t.phase <= PHASE_MAX && s.delay == t.delay == 0
    requires Time(s) < Time(t) <= Time(s) + if s.phase == 1 then PHASE_TAP else 0
    ensures s.phase == 1 && t == s.(phase := 2)
  {
    assert 8 * s.offset + s.phase < 8 * t.offset + t.phase <= 8 * s.offset + s.phase + 1;
  }

  lemma PhaseTwoIsNext(s: Setting)
    requires s.phase == 1
    ensures Time(s.(phase := 2)) == Time(s) + PHASE_TAP
  {
  }

  // A read that passes throughout lo..hi.
  ghost predicate SolidOn(passes: (nat, nat, nat) -> bool, base: nat, lo: nat, hi: nat) {
    forall t: Setting :: Legal(t) && lo <= Time(t) <= hi ==> passes(Ring(base + t.offset), t.phase, t.delay)
  }

  // The setting a window centred at mid is quantised to, in the VFIFO cycle of mid.
  function CentreSetting(mid: nat, phase: nat, delay: nat): Setting
    requires mid > 0
  {
    Setting((mid - 1) / CYCLE, phase, delay)
  }

  // Every read that passes throughout a window passes at the centre the window is
  // quantised to, at some VFIFO position, exactly when that setting does not come
  // after the end of the window.
  lemma CentreOfSolidWindowPasses(base: nat, workBgn: nat, workEnd: nat, phase: nat, delay: nat)
    requires 0 < workBgn <= workEnd && IsCentre(WithinCycle((workBgn + workEnd) / 2), phase, delay)
    ensures (forall passes: (nat, nat, nat) -> bool :: SolidOn(passes, base, workBgn, workEnd) ==>
               exists x :: 0 <= x < VFIFO_SIZE && passes(x, phase, delay))
            <==> Time(CentreSetting((workBgn + workEnd) / 2, phase, delay)) <= workEnd
  {
    hide Ring;
    var mid := (workBgn + workEnd) / 2;
    var t := CentreSetting(mid, phase, delay);
    CentreIsNear(mid, phase, delay);
    if Time(t) <= workEnd {
      forall passes: (nat, nat, nat) -> bool | SolidOn(passes, base, workBgn, workEnd)
        ensures exists x :: 0 <= x < VFIFO_SIZE && passes(x, phase, delay)
      {
        assert passes(Ring(base + t.offset), phase, delay);
      }
    } else {
      var passes := OnlyWithin(base, workBgn, workEnd);
      OnlyWithinIsSolid(base, workBgn, workEnd);
      forall x | 0 <= x < VFIFO_SIZE
        ensures !passes(x, phase, delay)
      {
        CentreOutside(base, workBgn, workEnd, phase, delay, x);
      }
      assert SolidOn(passes, base, workBgn, workEnd) && !exists x :: 0 <= x < VFIFO_SIZE && passes(x, phase, delay);
    }
  }

  // That setting is legal, and comes at the middle or after it, by less than a delay
  // tap, or by less than a phase tap if the middle is at phase 0.
  lemma CentreIsNear(mid: nat, phase: nat, delay: nat)
    requires mid > 0 && IsCentre(WithinCycle(mid), phase, delay)
    ensures var t := CentreSetting(mid, phase, delay);
            && Legal(t)
            && mid <= Time(t) < mid + if WithinCycle(mid) > PHASE_TAP then DELAY_TAP else PHASE_TAP
  {
  }

  // The read that passes at the settings whose time is in lo..hi and nowhere else.
  ghost function OnlyWithin(base: nat, lo: nat, hi: nat): (nat, nat, nat) -> bool {
    (v: nat, p: nat, d: nat) => ComesWithin(base, lo, hi, v, p, d)
  }

  ghost predicate ComesWithin(base: nat, lo: nat, hi: nat, v: nat, p: nat, d: nat) {
    exists o: nat :: Ring(base + o) == v && lo <= Time(Setting(o, p, d)) <= hi
  }

  lemma OnlyWithinIsSolid(base: nat, lo: nat, hi: nat)
    ensures SolidOn(OnlyWithin(base, lo, hi), base, lo, hi)
  {
    hide Ring, Time, Legal, ComesWithin;
    forall t: Setting | lo <= Time(t) <= hi
      ensures ComesWithin(base, lo, hi, Ring(base + t.offset), t.phase, t.delay)
    {
      OneComesWithin(base, lo, hi, t);
    }
  }

  lemma OneComesWithin(base: nat, lo: nat, hi: nat, t: Setting)
    requires lo <= Time(t) <= hi
    ensures ComesWithin(base, lo, hi, Ring(base + t.offset), t.phase, t.delay)
  {
    hide Ring, Time;
    assert Setting(t.offset, t.phase, t.delay) == t;
  }

  lemma CentreOutside(base: nat, workBgn: nat, workEnd: nat, phase: nat, delay: nat, x: nat)
    requires 0 < workBgn <= workEnd && IsCentre(WithinCycle((workBgn + workEnd) / 2), phase, delay)
    requires Time(CentreSetting((workBgn + workEnd) / 2, phase, delay)) > workEnd
    ensures !OnlyWithin(base, workBgn, workEnd)(x, phase, delay)
  {
    hide Ring, IsCentre, WithinCycle;
    var mid := (workBgn + workEnd) / 2;
    var t := CentreSetting(mid, phase, delay);
    CentreIsNear(mid, phase, delay);
    assert Time(t) < mid + PHASE_TAP && workEnd <= 2 * mid - workBgn + 1;
    forall o: nat
      ensures !(workBgn <= Time(Setting(o, phase, delay)) <= workEnd)
    {
      assert Time(Setting(o, phase, delay)) == Time(t) + CYCLE * (o - t.offset);
      assert o >= t.offset || CYCLE * (o - t.offset) <= 0 - CYCLE;
    }
  }

  // For a window of two delay taps or more that is so when its middle is not at phase
  // 0, or phase 1 of the same cycle is still in the window.
  lemma CentreOfWindowIsInIt(workBgn: nat, workEnd: nat, phase: nat, delay: nat)
    requires 0 < workBgn && workBgn + 2 * DELAY_TAP <= workEnd
    requires IsCentre(WithinCycle((workBgn + workEnd) / 2), phase, delay)
    ensures var mid := (workBgn + workEnd) / 2;
            Time(CentreSetting(mid, phase, delay)) <= workEnd
            <==> WithinCycle(mid) > PHASE_TAP || (mid - 1) / CYCLE * CYCLE + PHASE_TAP <= workEnd
    ensures workBgn + 2 * PHASE_TAP <= workEnd ==>
              Time(CentreSetting((workBgn + workEnd) / 2, phase, delay)) <= workEnd
  {
    CentreIsNear((workBgn + workEnd) / 2, phase, delay);
  }

  // ---------- the count kept for tracking ----------

  // At the phase of x the read passes up to the time edge.
  ghost predicate PassesUpTo(phy: DqsEnPhy, base: nat, x: Setting, edge: nat) {
    forall k: nat :: k <= DELAY_MAX ==>
      (phy.Passes(base, x.(delay := k)) <==> Time(x.(delay := k)) <= edge)
  }

  // For a read that passes up to a time, at the phase of its last passing setting e
  // and the phase before: the count is the delays of one phase tap, but those of two
  // exactly when e is at phase 1, so that phase 0 was skipped on the way back, and
  // the delay chain is long enough to see the edge from there.
  lemma CountIsTwoPhaseTapsFromPhaseOne(phy: DqsEnPhy, base: nat, e: Setting, edge: nat, taps: nat)
    requires Legal(e) && (e.offset > 0 || e.phase > 1)
    requires PassesUpTo(phy, base, e, edge) && PassesUpTo(phy, base, PhaseBefore(e), edge)
    requires phy.Passes(base, e) && (e.delay == DELAY_MAX || !phy.Passes(base, e.(delay := e.delay + 1)))
    requires phy.Counted(VfifoBack(Ring(base + e.offset), e.phase), PhaseBack(e.phase), e.delay + 1,
                         DelaysPerPhase(), taps)
    ensures taps in {12, 13, 24, 25}
    ensures taps >= 24
            <==> e.phase == 1 && e.delay < DELAY_MAX && edge < Time(PhaseBefore(e).(delay := DELAY_MAX))
  {
    hide Ring, DqsEnPhy.Counted;
    var b := PhaseBefore(e);
    BackIsBefore(base, e);
    PhaseUpTo(phy, base, b, edge);
    assert Time(e) <= edge;
    if e.delay < DELAY_MAX {
      assert edge < Time(e.(delay := e.delay + 1));
    }
    CountToEdge(phy, Ring(base + b.offset), b, e.delay + 1, edge, taps);
  }

  lemma PhaseUpTo(phy: DqsEnPhy, base: nat, x: Setting, edge: nat)
    requires PassesUpTo(phy, base, x, edge)
    ensures forall k: nat :: k <= DELAY_MAX ==>
              (phy.passes(Ring(base + x.offset), x.phase, k) <==> Time(x.(delay := k)) <= edge)
  {
    hide Ring;
    forall k: nat | k <= DELAY_MAX
      ensures phy.passes(Ring(base + x.offset), x.phase, k) <==> Time(x.(delay := k)) <= edge
    {
      assert phy.Passes(base, x.(delay := k)) == phy.passes(Ring(base + x.offset), x.phase, k);
    }
  }

  // Counting on at the phase of b from a delay that has not passed the edge.
  lemma CountToEdge(phy: DqsEnPhy, vf: nat, b: Setting, d0: nat, edge: nat, taps: nat)
    requires forall k: nat :: k <= DELAY_MAX ==> (phy.passes(vf, b.phase, k) <==> Time(b.(delay := k)) <= edge)
    requires d0 <= DELAY_MAX ==> Time(b.(delay := d0)) <= edge
    requires phy.Counted(vf, b.phase, d0, DelaysPerPhase(), taps)
    ensures taps == if d0 <= DELAY_MAX && FirstPastEdge(b, edge) <= DELAY_MAX then FirstPastEdge(b, edge) - d0
                    else DelaysPerPhase()
  {
    var g := FirstPastEdge(b, edge);
    if d0 <= DELAY_MAX && g <= DELAY_MAX {
      assert phy.IsDrop(vf, b.phase, d0, d0, g);
    } else if d0 <= DELAY_MAX {
      phy.NoDropIfAllPass(vf, b.phase, d0, d0);
    }
  }

  // The first delay that takes x past the edge.
  function FirstPastEdge(x: Setting, edge: nat): (g: nat)
    ensures Time(x.(delay := g)) > edge && (g > 0 ==> Time(x.(delay := g - 1)) <= edge)
  {
    var t := Time(x.(delay := 0));
    if edge < t then 0 else (edge - t) / DELAY_TAP + 1
  }

  lemma BackIsBefore(base: nat, e: Setting)
    requires 1 <= e.phase <= PHASE_MAX && (e.offset > 0 || e.phase > 1)
    ensures VfifoBack(Ring(base + e.offset), e.phase) == Ring(base + PhaseBefore(e).offset)
    ensures PhaseBack(e.phase) == PhaseBefore(e).phase
  {
  }

  // A positive time less whole VFIFO cycles, in 1..CYCLE.
  function WithinCycle(t: nat): (m: nat)
    requires t > 0
    ensures 0 < m <= CYCLE
  {
    (t - 1) % CYCLE + 1
  }

  // phase and delay are what a centre m within a VFIFO cycle is quantised to: at
  // most a delay tap late, and phase 1 for a centre at phase 0, which cannot be
  // set.
  ghost predicate IsCentre(m: nat, phase: nat, delay: nat) {
    if m <= PHASE_TAP then phase == 1 && delay == 0
    else && 1 <= phase <= PHASE_MAX && delay <= 13
         && m <= PHASE_TAP * phase + DELAY_TAP * delay < m + DELAY_TAP
  }
}