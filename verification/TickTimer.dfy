// get_total_cycles: the tick count and a snapshot of the interval timer, read again
// until no tick came in between.

module TickTimer {
  import opened CArithmetic

  // Timer cycles to a tick; the timer counts down from PERIOD - 1 and reloads.
  const PERIOD: nat := 50000

  // When one turn of the loop reads the ticks, takes the snapshot, and reads the
  // ticks again, in cycles since the start.
  datatype Turn = Turn(t1At: nat, snapAt: nat, t2At: nat)

  ghost predicate InOrder(turns: seq<Turn>) {
    && (forall i :: 0 <= i < |turns| ==> turns[i].t1At <= turns[i].snapAt <= turns[i].t2At)
    && (forall i, j :: 0 <= i < j < |turns| ==> turns[i].t2At <= turns[j].t1At)
  }

  // The timer's count at a time.
  function Counter(time: nat): (c: nat)
    ensures c < PERIOD
  {
    PERIOD - 1 - time % PERIOD
  }

  // The tick count over time: it is kept by the timer interrupt, so it never goes
  // back, and it may be behind the reloads but not ahead of them.
  ghost predicate TickCount(ticks: nat -> nat) {
    && (forall t, u :: 0 <= t <= u ==> ticks(t) <= ticks(u))
    && (forall t: nat :: ticks(t) <= t / PERIOD)
  }

  // The interrupt of the last reload has been served.
  predicate UpToDate(ticks: nat -> nat, time: nat) {
    ticks(time) == time / PERIOD
  }

  // The loop ends at the first turn without a tick in between, and what it returns
  // belongs to the instant of the snapshot of that turn.
  method GetTotalCycles(ticks: nat -> nat, turns: seq<Turn>) returns (cycles: nat, k: nat)
    requires TickCount(ticks) && InOrder(turns)
    requires forall i :: 0 <= i < |turns| ==> ticks(turns[i].t2At) < TWO_TO_THE_32
    requires exists i :: 0 <= i < |turns| && ticks(turns[i].t1At) == ticks(turns[i].t2At)
    ensures k < |turns|
    ensures forall i :: 0 <= i < k ==> ticks(turns[i].t1At) != ticks(turns[i].t2At)
    ensures UpToDate(ticks, turns[k].snapAt) <==> cycles == turns[k].snapAt
    ensures cycles == ticks(turns[k].snapAt) * PERIOD + turns[k].snapAt % PERIOD
  {
    k := 0;
    var t1, snap, t2 := ReadTurn(ticks, turns[0]);
    while t1 != t2
      invariant k < |turns|
      invariant t1 == ticks(turns[k].t1At) && snap == Counter(turns[k].snapAt) && t2 == ticks(turns[k].t2At)
      invariant forall i :: 0 <= i < k ==> ticks(turns[i].t1At) != ticks(turns[i].t2At)
      decreases |turns| - k
    {
      k := k + 1;
      t1, snap, t2 := ReadTurn(ticks, turns[k]);
    }
    assert ticks(turns[k].t1At) <= ticks(turns[k].snapAt) <= ticks(turns[k].t2At);
    cycles := t1 * PERIOD;
    cycles := cycles + (PERIOD - 1 - snap);
  }

  // One turn: the snapshot is read in two halves of 16 bits.
  method ReadTurn(ticks: nat -> nat, turn: Turn) returns (t1: nat, snap: nat, t2: nat)
    ensures t1 == ticks(turn.t1At) && snap == Counter(turn.snapAt) && t2 == ticks(turn.t2At)
  {
    t1 := ticks(turn.t1At);
    var latched := Counter(turn.snapAt);
    var low := latched % 0x1_0000;
    var high := latched / 0x1_0000;
    snap := high * 0x1_0000 + low;
    t2 := ticks(turn.t2At);
  }

  // What a call returns for its snapshot instant.
  function Returned(ticks: nat -> nat, time: nat): nat {
    ticks(time) * PERIOD + time % PERIOD
  }

  // A later call returns no less exactly when a tick was counted in between or the
  // timer's place within its period has not gone back.
  lemma LaterIsNotLess(ticks: nat -> nat, first: nat, second: nat)
    requires TickCount(ticks) && first <= second
    ensures Returned(ticks, first) <= Returned(ticks, second)
            <==> ticks(first) < ticks(second) || first % PERIOD <= second % PERIOD
  {
    assert ticks(first) <= ticks(second);
  }

  // So calls never go back when the interrupt is served by the later snapshot, or is
  // always the same number of reloads behind.
  lemma SteadyTicksNeverGoBack(ticks: nat -> nat, first: nat, second: nat)
    requires TickCount(ticks) && first <= second
    requires UpToDate(ticks, second) || first / PERIOD - ticks(first) == second / PERIOD - ticks(second)
    ensures Returned(ticks, first) <= Returned(ticks, second)
  {
    assert ticks(first) <= first / PERIOD <= second / PERIOD;
  }

  // An interrupt served late, after one that was served in time.
  lemma LateInterruptGoesBack() returns (ticks: nat -> nat, first: nat, second: nat)
    ensures TickCount(ticks) && first <= second && Returned(ticks, second) < Returned(ticks, first)
    ensures !UpToDate(ticks, second)
  {
    ticks := t => if t <= PERIOD then 0 else t / PERIOD;
    first, second := PERIOD - 1, PERIOD;
  }
}
