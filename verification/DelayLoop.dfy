// delay_for_n_mem_clocks and the counter micro-program it starts in the read/write
// manager.

module DelayLoop {
  import opened CArithmetic

  // The micro-program:
  //   IDLE_LOOP2: jump to its target while counter 0 runs
  //   IDLE_LOOP1: jump to its target while counter 1 runs
  //               return
  datatype Pc = IdleLoop2 | IdleLoop1 | Return

  // x rounded up to a multiple of m.
  function RoundUp(x: nat, m: nat): nat
    requires m > 0
  {
    (x + m - 1) / m * m
  }

  // The idle clocks the routine waits for a delay of afi clocks.
  function Waits(afi: nat): nat {
    if afi == 0 then 1
    else if afi <= 0x100 then afi
    else if afi <= 0x1_0000 then RoundUp(afi, 0x100)
    else RoundUp(afi, 0x1_0000)
  }

  class RwMgr {
    // The loaded counter values and the jump target of IDLE_LOOP1 (IDLE_LOOP2
    // always jumps to itself).
    var load0: nat
    var load1: nat
    var target1: Pc
    // How often each idle instruction has been executed.
    var idle2: nat
    var idle1: nat

    constructor ()
      ensures idle2 == idle1 == 0
    {
      load0, load1, target1, idle2, idle1 := 0, 0, IdleLoop1, 0, 0;
    }

    // RW_MGR_RUN_SINGLE_GROUP: run the micro-program.  A counter is tested before
    // it is decremented, and reloads when it has run out.
    method Run(start: Pc)
      requires start == target1 != Return
      modifies this`idle1, this`idle2
      ensures idle1 == old(idle1) + load1 + 1
      ensures idle2 == old(idle2) + if start == IdleLoop2 then (load1 + 1) * (load0 + 1) else 0
    {
      var pc, cntr0, cntr1 := start, load0, load1;
      while pc != Return
        invariant pc != Return ==> idle1 + cntr1 == old(idle1) + load1
        invariant pc == Return ==> idle1 == old(idle1) + load1 + 1
        invariant pc == IdleLoop2 ==> start == IdleLoop2
        invariant cntr0 >= 0 && cntr1 >= 0
        invariant start == IdleLoop1 ==> idle2 == old(idle2)
        invariant start == IdleLoop2 && pc == IdleLoop2 ==>
                    idle2 + cntr0 + 1 + cntr1 * (load0 + 1) == old(idle2) + (load1 + 1) * (load0 + 1)
        invariant start == IdleLoop2 && pc == IdleLoop1 ==>
                    cntr0 == load0 && idle2 + cntr1 * (load0 + 1) == old(idle2) + (load1 + 1) * (load0 + 1)
        invariant start == IdleLoop2 && pc == Return ==>
                    idle2 == old(idle2) + (load1 + 1) * (load0 + 1)
        decreases pc != Return, cntr1, pc == IdleLoop2, cntr0
      {
        if pc == IdleLoop2 {
          idle2 := idle2 + 1;
          if cntr0 != 0 {
            cntr0 := cntr0 - 1;
          } else {
            cntr0, pc := load0, IdleLoop1;
          }
        } else {
          idle1 := idle1 + 1;
          if cntr1 != 0 {
            assert cntr1 * (load0 + 1) == (cntr1 - 1) * (load0 + 1) + (load0 + 1);
            cntr1, pc := cntr1 - 1, target1;
          } else {
            cntr1, pc := load1, Return;
          }
        }
      }
    }

    // delay_for_n_mem_clocks, in the build's setting where delay loops are not
    // skipped.  The loop that does the waiting is IDLE_LOOP1 for short delays and
    // IDLE_LOOP2 for the others.
    method DelayForNMemClocks(clocks: nat, ratio: nat)
      requires clocks < TWO_TO_THE_32 && 0 < ratio < TWO_TO_THE_32
      modifies this
      ensures var afi := AfiClocks(clocks, ratio);
              if afi <= 0x100 then idle1 == old(idle1) + Waits(afi) && idle2 == old(idle2)
              else idle2 == old(idle2) + Waits(afi)
    {
      hide AfiClocks;
      DelayForAfiClocks(AfiClocks(clocks, ratio));
    }

    // The same, once the clocks are scaled.  The counters are 8 bits wide and the
    // loop count 16.
    method DelayForAfiClocks(afi: nat)
      requires afi < TWO_TO_THE_32
      modifies this
      ensures if afi <= 0x100 then idle1 == old(idle1) + Waits(afi) && idle2 == old(idle2)
              else idle2 == old(idle2) + Waits(afi)
    {
      var inner, outer, cLoop := 0, 0, 0;
      if afi == 0 {
      } else if afi <= 0x100 {
        inner := (afi - 1) % 0x100;
      } else if afi <= 0x1_0000 {
        inner, outer := 0xff, (afi - 1) / 0x100 % 0x100;
      } else {
        inner, outer, cLoop := 0xff, 0xff, (afi - 1) / 0x1_0000 % 0x1_0000;
      }
      if afi <= 0x100 {
        load1, target1 := inner, IdleLoop1;
        Run(IdleLoop1);
      } else {
        load0, load1, target1 := inner, outer, IdleLoop2;
        if afi <= 0x1_0000 {
          Run(IdleLoop2);
          assert (load1 + 1) * (load0 + 1) == (outer + 1) * 0x100;
        } else {
          RunMany(cLoop);
        }
      }
    }

    // The do-while loop on a 16-bit counter.
    method RunMany(cLoop0: nat)
      requires cLoop0 < 0x1_0000 && load0 == load1 == 0xff && target1 == IdleLoop2
      modifies this`idle1, this`idle2
      ensures idle2 == old(idle2) + (cLoop0 + 1) * 0x1_0000
    {
      var cLoop := cLoop0;
      while true
        invariant 0 <= cLoop <= cLoop0 && idle2 == old(idle2) + (cLoop0 - cLoop) * 0x1_0000
        decreases cLoop
      {
        Run(IdleLoop2);
        if cLoop == 0 {
          break;
        }
        cLoop := cLoop - 1;
      }
    }
  }

  // The clocks scaled to AFI clocks, rounding up, in 32-bit arithmetic.
  function AfiClocks(clocks: nat, ratio: nat): (afi: nat)
    requires 0 < ratio
    ensures afi < TWO_TO_THE_32
  {
    var x := (clocks + ratio - 1) % TWO_TO_THE_32;
    QuotientIsSmaller(x, ratio);
    x / ratio
  }

  lemma TimesAtLeast(r: nat, q: nat)
    requires r > 0
    ensures r * q >= q
  {
    assert r * q == q + (r - 1) * q;
  }

  lemma QuotientIsSmaller(x: nat, ratio: nat)
    requires ratio > 0
    ensures x / ratio <= x
  {
    TimesAtLeast(ratio, x / ratio);
  }

  // The wait is the delay asked for, or the delay rounded up to a multiple of 256
  // or 65536 clocks: never shorter, and longer by less than that.  A delay of no clocks
  // still takes one.
  lemma NeverWaitsShort(afi: nat)
    ensures Waits(afi) >= afi && Waits(0) == 1
    ensures 0 < afi <= 0x100 ==> Waits(afi) == afi
    ensures 0x100 < afi <= 0x1_0000 ==> Waits(afi) % 0x100 == 0 && Waits(afi) - afi < 0x100
    ensures 0x1_0000 < afi ==> Waits(afi) % 0x1_0000 == 0 && Waits(afi) - afi < 0x1_0000
  {
  }

  // In memory clocks the wait is long enough exactly when rounding up does not
  // overflow the word.
  lemma WaitCoversClocks(clocks: nat, ratio: nat)
    requires clocks < TWO_TO_THE_32 && 0 < ratio <= 0x1_0000
    ensures Waits(AfiClocks(clocks, ratio)) * ratio >= clocks <==> clocks + ratio - 1 < TWO_TO_THE_32
  {
    if clocks + ratio - 1 < TWO_TO_THE_32 {
      var afi := AfiClocks(clocks, ratio);
      NeverWaitsShort(afi);
      CoversMore(clocks, ratio, afi, Waits(afi));
    } else {
      QuotientOfSmaller((clocks + ratio - 1) % TWO_TO_THE_32, ratio);
    }
  }

  // Unless rounding up overflows, the AFI clocks are the fewest that cover the request.
  lemma AfiIsFewest(clocks: nat, ratio: nat, n: nat)
    requires clocks + ratio - 1 < TWO_TO_THE_32 && ratio > 0
    ensures n * ratio >= clocks <==> n >= AfiClocks(clocks, ratio)
  {
    var afi := AfiClocks(clocks, ratio);
    assert (clocks + ratio - 1) % TWO_TO_THE_32 == clocks + ratio - 1;
    if n >= afi {
      CoversMore(clocks, ratio, afi, n);
    } else {
      FewerFallShort(clocks, ratio, afi, n);
    }
  }

  lemma FewerFallShort(clocks: nat, ratio: nat, afi: nat, n: nat)
    requires ratio > 0 && afi == (clocks + ratio - 1) / ratio && n < afi
    ensures n * ratio < clocks
  {
    assert ratio * afi + (clocks + ratio - 1) % ratio == clocks + ratio - 1;
    assert ratio * afi == n * ratio + ratio * (afi - n);
    TimesAtLeast(afi - n, ratio);
  }

  lemma CoversMore(clocks: nat, ratio: nat, afi: nat, waits: nat)
    requires ratio > 0 && afi == (clocks + ratio - 1) / ratio && waits >= afi
    ensures waits * ratio >= clocks
  {
    assert ratio * afi + (clocks + ratio - 1) % ratio == clocks + ratio - 1;
    assert waits * ratio == ratio * afi + (waits - afi) * ratio;
  }

  lemma QuotientOfSmaller(x: nat, ratio: nat)
    requires x < ratio
    ensures x / ratio == 0
  {
  }
}
