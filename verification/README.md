# DDR3 calibration sequencer and Nios II support code: verified models

A Dafny 4.11 model of the software that brings up the DDR3 memory of a Cyclone V
SoC board and of the Nios II run-time code used beside it, with proofs of what that
software promises.  `dafny verify dfyconfig.toml` checks everything.

## What is modelled

* **Per-bit deskew** (`Deskew`, `ReadDeskew`, `WriteDeskew`, `DmWindow`): the read
  and the write deskew of one group on the SCC delay registers.  The hardware is an
  oracle `eye(bit, y)`: does the bit pass when sampled at y = DQS delay - DQ delay?
  The two sweeps move along this one axis from opposite sides.  The oracle is
  arbitrary; that the passing positions have no gap is assumed only where a statement
  says so.
* **DQS enable** (`DqsEnable`, `DqsEnableRuns`): the search over VFIFO position, phase and delay taps
  for the two ends of the window, and the centring, on a 16-position VFIFO ring.
* **Calibration as a whole** (`VfifoStage`, `MemCalibrate`): the search for output
  delays at which a read group calibrates, and the sequence of stages over all
  groups with its two ways of going on after a failure and its record of the first
  failure.
* **Test plumbing of the sequencer** (`BitTests`, `DelayLoop`, `BitVectors`,
  `CArithmetic`): gathering error words of ranks and virtual groups, and the delay
  routine with the counter micro-program it runs.
* **Debug mailbox** (`Mailbox`): firmware and host as two parties whose accesses to
  two shared words interleave in any way.
* **HAL file descriptors** (`FdTable`, `FdList`): the system calls as functions on a
  table value, with invariants over all runs, and the same calls on the array in
  place, each proved equal to its function.
* **Memory test** (`TestPattern`, `MemVerify`): the 257-word pattern, on a memory
  whose address decoder may be faulty.
* **Number printing** (`NumberFormat`), **caches** (`Cache`), **heap and call-graph
  profiler** (`Heap`, `Profiler`) and the **cycle counter** (`TickTimer`).

The branches are those this build selects: DDR3, Cyclone V, hard PHY, HPS, phase tap
0 skipped for DQS enable, DQS centring on the read side only, read deskew again after
the writes, full calibration.  C division truncates toward zero and is written out;
32-bit wrap-around is written out where it can matter.

## What the proofs brought to light

Each of these is a proved statement, with the condition under which the code does what
it is meant to where there is one.

* The upper clamp of the read deskew reads the delay of pin i of the first group
  instead of pin p of its own (sequencer.c:5359-5363).  Delays stay within their
  chains, but a pin that should stop at the end of its chain may stop short of it in
  a group that does not begin at pin 0 (`UpperClampIsExact`, `MisplacedPin`).  This
  build cannot reach that: each write group has one read group, so the group begins
  at pin 0 in every call and pin i is pin p.
* The mask of the write test is sized with read-side parameters
  (sequencer.c:718-719).  It is right for this build and exactly for the geometries
  `MaskMustMatchShift` names.
* A DQS enable search that begins at phase 1 never looks at phase 2, which may fail
  inside the window (`WindowIsSolidUnlessPhaseTwoFails`), and keeps an end time one
  phase early (`EndIsEdgeUnlessPhaseOne`; `PhaseTwoIsMissed` shows both).
* A begin taken for fuzzy is moved to the time of a phase that fails, or, in a search
  that begins at phase 1, of phase 2, which was not tried
  (`BeginPassesUnlessFuzzy`, `FuzzyBeginHappens`).
* The return for a DQS enable window whose end cannot be seen is never taken
  (`EndIsInSight`).
* A window narrower than two phase taps whose middle is at phase 0 can be missed by
  its centre, which is moved to phase 1, and the search then fails
  (`CentreOfWindowIsInIt`, `SearchAroundPhaseZero`).
* When the window ends at phase 1, the count of delay taps in a phase tap is that of
  two phase taps, since phase 0 is skipped on the way back
  (`CountIsTwoPhaseTapsFromPhaseOne`, `SearchIntoPhaseOne`).
* When DQS enable fails at the last input tap, the read calibration leaves the delay
  register there and the next output delay tries only that tap
  (`RowsSearchFromFirstTap`); a setting that works can be missed
  (`WorkingRowIsMissed`).
* `alt_fd_lock` does not look at the descriptor at the high-water mark, so it grants
  a lock its comment says it refuses (`LockIsGrantedBesideSecondUser`).  Exclusivity
  holds all the same (`ExclusionHoldsInEveryRun`).
* `get_total_cycles` goes back exactly when two calls see the same tick count although
  the timer's place within its period has gone back (`LaterIsNotLess`), which a tick
  interrupt served late makes possible (`LateInterruptGoesBack`).

## Model

| member | source | states |
|---|---|---|
| `Deskew.LeftStateStep` | hps_isw_handoff/soc_system_hps_0/sequencer.c:5139-5174 | One setting of the left sweep: if the edge arrays hold, for every bit, the least scanned passing position (and the greatest one below start as a negative right edge), they still do with one more position scanned, and the sticky word holds exactly the bits that have passed. |
| `Deskew.RightStateStep` | hps_isw_handoff/soc_system_hps_0/sequencer.c:5202-5260 | One setting of the right sweep, from the edges the left sweep left behind: afterwards both edges are the extremes of all passing positions scanned so far, on either side of start, or the sentinels if there is none. |
| `Deskew.LeftStop` | hps_isw_handoff/soc_system_hps_0/sequencer.c:5144-5157 | When the sticky-mask test ends the left sweep, every bit fails at that setting after having passed at an earlier one. |
| `Deskew.RightStop` | hps_isw_handoff/soc_system_hps_0/sequencer.c:5216-5230 | The same for the right sweep. |
| `Deskew.ScanComplete` | hps_isw_handoff/soc_system_hps_0/sequencer.c:5138-5298 | An early stop loses nothing: for every bit "no window" is reported if and only if no reachable position passes, whatever the eye looks like; if the passing positions have no gap the edges are those of the whole reachable axis. |
| `Deskew.FindMinIndex` | hps_isw_handoff/soc_system_hps_0/sequencer.c:5301-5309 | The first bit whose left minus right edge is least, and that least value. |
| `Deskew.IdealIsCentred` | hps_isw_handoff/soc_system_hps_0/sequencer.c:5311-5355 | For all signed edges, odd and negative middles included and even when the DQS move was clamped, the computed DQ shift leaves the two margins of the bit at most one tap apart. |
| `Deskew.BestDq` | hps_isw_handoff/soc_system_hps_0/sequencer.c:5352-5366 | Wherever DQS ended, the clamped DQ shift gives the bit the largest smallest margin any delay of its chain can give. |
| `Deskew.BestDqsAndDq` | hps_isw_handoff/soc_system_hps_0/sequencer.c:5311-5366 | If the shift does not exceed the chain, no pair of DQS and DQ delays gives the bit a larger smallest margin. |
| `ReadDeskew.ReadPhy.SearchLeft` | hps_isw_handoff/soc_system_hps_0/sequencer.c:5128-5174 | The left sweep on the SCC registers: edges as above for exactly the settings scanned; it ends at the end of the chain or where all bits fail after passing; DQS is untouched. |
| `ReadDeskew.ReadPhy.SearchRight` | hps_isw_handoff/soc_system_hps_0/sequencer.c:5202-5260 | The right sweep on the SCC registers: the extremes over both sweeps, and where and why it stopped; no other DQS group changes. |
| `ReadDeskew.ReadPhy.CentreBit` | hps_isw_handoff/soc_system_hps_0/sequencer.c:5353-5366 | The shift of one pin, with the clamp reading pin i and everything else pin p: the delay written is always within its chain. |
| `ReadDeskew.ReadPhy.VfifoCenter` | hps_isw_handoff/soc_system_hps_0/sequencer.c:5095-5443 | The whole read deskew: it reports no window if and only if some bit passes nowhere reachable, then for the first such bit, with DQS restored; otherwise edges are measured, DQS and every DQ are placed as specified, the margins reported are the least of those of the bits, and it returns 1 if and only if every bit sits between its measured edges. All registers stay within their chains and other pins and groups do not change. |
| `ReadDeskew.ReadPhy.CalibratedGroupPasses` | hps_isw_handoff/soc_system_hps_0/sequencer.c:5352-5443 | After a return of 1 each bit whose own eye has no gap passes its test at the final register values. |
| `ReadDeskew.ReadPhy.SettledIsBest` | hps_isw_handoff/soc_system_hps_0/sequencer.c:5300-5416 | At the final register values no other DQ delay, and while no chain is too short no other DQS and DQ delays, give a bit a larger smallest margin; bits whose shift was not clamped are centred within one tap. |
| `ReadDeskew.ReadPhy.UpperClampIsExact` | hps_isw_handoff/soc_system_hps_0/sequencer.c:5359-5363 | The upper clamp as coded is the right one if and only if the ideal shift fits or the register it reads by mistake holds 0. |
| `ReadDeskew.ReadPhy.CentreDq` | hps_isw_handoff/soc_system_hps_0/sequencer.c:5352-5379 | The whole loop over the pins of a group: every delay is the ideal one, clamped with the register the code reads, which in a group not at pin 0 is that of another group or of an earlier pin of this one; the two margins returned are the least over the bits of what is left of them on either side, capped at the chain length plus one. |
| `ReadDeskew.ReadPhy.LeastMeansInside` | hps_isw_handoff/soc_system_hps_0/sequencer.c:5352-5443 | Both least margins are non-negative if and only if every bit sits between its edges where it was left: why testing two numbers is enough. |
| `ReadDeskew.MisplacedPin` | hps_isw_handoff/soc_system_hps_0/sequencer.c:5359-5363 | A group at pin 8, its edges and registers, for which the loop stops a pin at 26 that should go to the end of its chain at 31. |
| `WriteDeskew.WritePhy.SearchRight` | hps_isw_handoff/soc_system_hps_0/sequencer.c:7331-7388 | The right sweep of the write side, including the branch that marks a bit marginal when the very first setting stops the sweep, which is shown to mark none. |
| `WriteDeskew.WritePhy.CentreDq` | hps_isw_handoff/soc_system_hps_0/sequencer.c:7462-7491 | DQ shifts with DQS left in place: every delay is the ideal one clamped to its chain, and the two margins returned are the least over the bits of what is left of them on either side, capped at the chain length plus one. |
| `DmWindow.StepKnows` | hps_isw_handoff/soc_system_hps_0/sequencer.c:7661-7680 | One tested position of the data-mask axis: if the five variables describe the run that reaches the last position and the leftmost longest run so far, they do one position on. |
| `DmWindow.StepAgain` | hps_isw_handoff/soc_system_hps_0/sequencer.c:7686-7717 | Testing position 0 a second time, at the start of the second sweep, changes nothing. |
| `DmWindow.EarlyExitIsBest` | hps_isw_handoff/soc_system_hps_0/sequencer.c:7718-7729 | Giving up at a failing position with less chain left than the best run does not change the leftmost longest run of the whole axis. |
| `DmWindow.BestIsUnique` | hps_isw_handoff/soc_system_hps_0/sequencer.c:7645-7734 | There is only one leftmost longest run, so the two sweeps can have no other answer. |
| `DmWindow.DmMarginMeansInside` | hps_isw_handoff/soc_system_hps_0/sequencer.c:7745-7758 | The data-mask margin is not negative if and only if the chosen delay lies in the window; the margins on the two sides differ by at most one tap if and only if the ends of the window add up to at most 1, that is, its centre is not past 0. |
| `WriteDeskew.WritePhy.DmAxisIsTest` | hps_isw_handoff/soc_system_hps_0/sequencer.c:7657-7703 | The data-mask test on the registers equals the pass predicate of the one axis both sweeps share, whichever register is being moved. |
| `WriteDeskew.WritePhy.SearchDm` | hps_isw_handoff/soc_system_hps_0/sequencer.c:7645-7741 | The two data-mask sweeps find the leftmost longest run of passing positions of the whole axis, and leave DQ and DQS where they were. |
| `WriteDeskew.WritePhy.CentreDm` | hps_isw_handoff/soc_system_hps_0/sequencer.c:7732-7763 | The data-mask delay is in its chain, and if the margin, the distance from the left end of the window to that delay, is not negative the data-mask test passes at the final register values. |
| `WriteDeskew.WritePhy.SettledIsBest` | hps_isw_handoff/soc_system_hps_0/sequencer.c:7413-7491 | At the final register values, with DQS in place, no other DQ delay gives a bit a larger smallest margin, and bits whose shift was not clamped are centred within one tap. |
| `WriteDeskew.WritePhy.WritesCenter` | hps_isw_handoff/soc_system_hps_0/sequencer.c:7228-7943 | The whole write deskew: no window reported if and only if some bit has none; otherwise the margins reported are the least of those of the bits and that of the data mask, and it returns 1 if and only if every DQ sits inside its measured edges and the data-mask delay inside the best window, and then the data-mask write test passes on all bits as the registers are left. |
| `DqsEnable.StaticDelaysPerPhase` | hps_isw_handoff/soc_system_hps_0/sequencer.c:4082-4088 | The counting loop computes the number of whole delay taps in a phase tap. |
| `DqsEnable.DqsEnPhy.DecrVfifo` | hps_isw_handoff/soc_system_hps_0/sequencer.c:3922-3929 | Fifteen increments move the VFIFO ring back by exactly one. |
| `DqsEnable.DqsEnPhy.PushUntilFailing` | hps_isw_handoff/soc_system_hps_0/sequencer.c:4127-4141 | Stops at the second failing VFIFO position, or has gone all the way round and at most one position fails. |
| `DqsEnable.DqsEnPhy.FindBegin` | hps_isw_handoff/soc_system_hps_0/sequencer.c:4145-4192 | The first passing setting in the order delay, VFIFO, phase, with its time; or no setting searched passes; whole turns leave the ring in place. |
| `DqsEnable.DqsEnPhy.RefineBegin` | hps_isw_handoff/soc_system_hps_0/sequencer.c:4198-4291 | The begin time is that of the first passing delay one phase earlier; if every earlier delay there fails, or there is no phase to back off to, it is that of the setting found. VFIFO and delay are restored, and the phase is except that a begin at phase 1 comes back at 2. |
| `DqsEnable.DqsEnPhy.FindEnd` | hps_isw_handoff/soc_system_hps_0/sequencer.c:4298-4377 | The end is a failing phase with every tested phase before it passing, but for a first one that made the begin fuzzy; the time kept for it lags one phase exactly when the search began at phase 1; if the first phase tried fails the begin moves there; if no end is found every phase of the turns searched passes. |
| `DqsEnable.DqsEnPhy.EndIsInSight` | hps_isw_handoff/soc_system_hps_0/sequencer.c:4373-4377 | That last case never arises: the VFIFO position the search was pushed to fails and comes round again. |
| `DqsEnable.DqsEnPhy.StepBack` | hps_isw_handoff/soc_system_hps_0/sequencer.c:4379-4401 | Backing off lands on the phase before the failing one, across the VFIFO turn and over phase 0, and the time follows. |
| `DqsEnable.DqsEnPhy.FindDelayEnd` | hps_isw_handoff/soc_system_hps_0/sequencer.c:4427-4441 | Every delay before the one returned passes and that one fails, or the chain is exhausted; the end time is that of the last passing delay. |
| `DqsEnable.DqsEnPhy.CountDelaysPerPhase` | hps_isw_handoff/soc_system_hps_0/sequencer.c:4480-4537 | At the settable phase before the end, which from phase 1 is two phase taps back, the count is the distance to the first failing delay after the first passing one if there is such a pair, and the static count otherwise. |
| `DqsEnable.CountIsTwoPhaseTapsFromPhaseOne` | hps_isw_handoff/soc_system_hps_0/sequencer.c:4450-4537 | For a read that passes up to a time, the count is 12 or 13, the delay taps of a phase tap, or 24 or 25, and it is the latter if and only if the end is at phase 1 and the delay chain long enough to see the edge from the phase before. |
| `DqsEnableRuns.SearchIntoPhaseOne` | hps_isw_handoff/soc_system_hps_0/sequencer.c:4480-4537 | A read, and the search on it, which succeeds with a count of 24. |
| `DqsEnable.DqsEnPhy.ReduceCentre` | hps_isw_handoff/soc_system_hps_0/sequencer.c:4557-4559 | Taking whole VFIFO cycles off the centre gives its place in 1..2496. |
| `DqsEnable.DqsEnPhy.SetCentre` | hps_isw_handoff/soc_system_hps_0/sequencer.c:4561-4580 | The phase is legal, the delay at most 13, and their time at most one delay tap past the centre; a centre at phase 0 becomes phase 1 with no delay. |
| `DqsEnable.DqsEnPhy.PushUntilPassing` | hps_isw_handoff/soc_system_hps_0/sequencer.c:4585-4598 | Ends at a VFIFO position that passes if there is one anywhere on the ring. |
| `DqsEnable.DqsEnPhy.FindDqsEnPhase` | hps_isw_handoff/soc_system_hps_0/sequencer.c:4042-4605 | The whole search: at most one VFIFO position fails, no setting searched passes, or no VFIFO position passes at the centre, as the return taken says, and the return for an end out of sight is never taken. Otherwise the window from the first passing setting: the begin as refined, or moved to the first phase tried if that fails; the end the last passing delay of the last passing phase, or that failing phase itself; everything tested in between passing, the next phase and the next delay failing; and on success a read that passes at the setting left behind. |
| `DqsEnable.TimeIsInjective` | hps_isw_handoff/soc_system_hps_0/sequencer.c:4145-4192 | Two legal settings with the same time are the same setting. |
| `DqsEnable.BeginPassesUnlessFuzzy` | hps_isw_handoff/soc_system_hps_0/sequencer.c:4347-4353 | The begin time belongs to a passing setting if and only if the begin was not taken for fuzzy, or the search began at phase 1 and phase 2, which it never tried, passes. |
| `DqsEnableRuns.FuzzyBeginHappens` | hps_isw_handoff/soc_system_hps_0/sequencer.c:4347-4353 | A read that passes at one VFIFO position and phases 3, 5 and 6: the begin is fuzzy and no setting at the begin time passes. |
| `DqsEnable.EndIsEdgeUnlessPhaseOne` | hps_isw_handoff/soc_system_hps_0/sequencer.c:4213-4217 | The end time belongs to a last passing delay if and only if the search did not begin at phase 1 and delay 0, or the phase before the end has its last passing delay at the same tap. |
| `DqsEnable.WindowIsSolidUnlessPhaseTwoFails` | hps_isw_handoff/soc_system_hps_0/sequencer.c:4293-4341 | Every settable phase between the first passing setting and that of the end passes if and only if the search did not begin at phase 1 or phase 2 passes. |
| `DqsEnableRuns.PhaseTwoIsMissed` | hps_isw_handoff/soc_system_hps_0/sequencer.c:4213-4217 | A read that passes at one VFIFO position and phases 1, 3, 4 and 5: phase 2 lies inside the window measured, and the end time is one phase early. |
| `DqsEnableRuns.SearchPhases` | hps_isw_handoff/soc_system_hps_0/sequencer.c:4042-4605 | The search on such reads does end with a window, begun at the first of the phases. |
| `DqsEnable.CentreOfSolidWindowPasses` | hps_isw_handoff/soc_system_hps_0/sequencer.c:4552-4598 | For any window: every read that passes throughout it passes at the quantised centre, at some VFIFO position, so that the last step succeeds, if and only if that setting does not come after the end of the window. |
| `DqsEnable.CentreOfWindowIsInIt` | hps_isw_handoff/soc_system_hps_0/sequencer.c:4561-4580 | For a window of two delay taps or more that is so if and only if its middle is not at phase 0 or phase 1 of the same cycle is still in the window; two phase taps are always enough. |
| `DqsEnableRuns.CentreMissesWindow` | hps_isw_handoff/soc_system_hps_0/sequencer.c:4572-4577 | A read with a solid window of 100 ps around phase 0 which passes at phase 1, delay 0 at no VFIFO position. |
| `DqsEnableRuns.SearchAroundPhaseZero` | hps_isw_handoff/soc_system_hps_0/sequencer.c:4572-4598 | The search on that read ends without a centre. |
| `VfifoStage.Stage.TryTaps` | hps_isw_handoff/soc_system_hps_0/sequencer.c:5843-5972 | One output delay and phase: the first DQS input tap at which DQS enable and every deskew succeed, or none does and the delay register is left as the last tap left it. |
| `VfifoStage.Stage.Search` | hps_isw_handoff/soc_system_hps_0/sequencer.c:5748-5998 | The search succeeds if and only if some setting it gets to works, and ends at the first of those; on failure the substage reported is 1, the guaranteed read's, if and only if that read failed for every output delay, and otherwise it is 3 if DQS enable succeeded at the last tap of the last phase reached for the last output delay reached, and 2 if not. |
| `VfifoStage.Stage.RowsSearchFromFirstTap` | hps_isw_handoff/soc_system_hps_0/sequencer.c:5794-5846 | With the one output phase of this build, all output delays up to a given one search from the tap the first one searched from if and only if every earlier one whose guaranteed read passed left that tap in the register. |
| `VfifoStage.Stage.LaterRowsTryLastTapOnly` | hps_isw_handoff/soc_system_hps_0/sequencer.c:5845-5846 | After a first output delay whose DQS enable failed at the last tap, all later ones try that one tap only, as long as it goes on failing. |
| `VfifoStage.WorkingRowIsMissed` | hps_isw_handoff/soc_system_hps_0/sequencer.c:5794-5846 | This build's ranges and answers of a board for which output delay 2 works at tap 5, but is only tried at tap 31, so that the whole search fails. |
| `BitTests.BitTest` | hps_isw_handoff/soc_system_hps_0/sequencer.c:3762-3837 | For any number of ranks and virtual groups, bit i of the result is set if and only if it was free of an error in its own virtual group in every rank not skipped; all-bits and one-bit modes succeed accordingly. |
| `BitTests.GatherReaches` | hps_isw_handoff/soc_system_hps_0/sequencer.c:3797-3813 | What a bit of the gathered word depends on, group by group, for any shift and mask width. |
| `BitTests.MultiTry` | hps_isw_handoff/soc_system_hps_0/sequencer.c:3839-3856 | Succeeds if and only if every try does, at least one being made; the bits returned are those of the first try that fails, or of the last. |
| `BitTests.MaskMustMatchShift` | hps_isw_handoff/soc_system_hps_0/sequencer.c:718-719 | With the mask of the write test sized from read-side parameters, the gathered word is right for all error words if and only if the mask is as wide as the shift, or there is one virtual group and the mask covers it. |
| `BitTests.WrongGather` | hps_isw_handoff/soc_system_hps_0/sequencer.c:6438-6456 | For every other mask width, error words for which the gathered word is wrong. |
| `DelayLoop.RwMgr.Run` | hps_isw_handoff/soc_system_hps_0/sequencer.c:2050-2085 | The counter micro-program with reloading counters executes the inner idle instruction the product of both counts plus one each, and returns. |
| `DelayLoop.RwMgr.DelayForNMemClocks` | hps_isw_handoff/soc_system_hps_0/sequencer.c:2019-2085 | The idle instruction is executed exactly the AFI clocks asked for, or that rounded up to a multiple of 256 or 65536, with 8- and 16-bit counters and nothing cut off. |
| `DelayLoop.NeverWaitsShort` | hps_isw_handoff/soc_system_hps_0/sequencer.c:2030-2047 | That many clocks are never fewer than asked for, and exceed them by less than the multiple; a wait of none takes one. |
| `DelayLoop.WaitCoversClocks` | hps_isw_handoff/soc_system_hps_0/sequencer.c:2028-2028 | In memory clocks the wait is long enough if and only if rounding up does not overflow 32 bits. |
| `DelayLoop.AfiIsFewest` | hps_isw_handoff/soc_system_hps_0/sequencer.c:2028-2028 | Unless rounding up overflows, the AFI clocks waited for are the fewest that cover the memory clocks asked for. |
| `MemCalibrate.Sequencer.SetFailingGroupStage` | hps_isw_handoff/soc_system_hps_0/sequencer.c:591-603 | A failure is kept only if none is kept yet. |
| `MemCalibrate.Sequencer.MemCalibrate` | hps_isw_handoff/soc_system_hps_0/sequencer.c:9149-9437 | Returns 1 if and only if every stage of every group not skipped passes, and the read latency stage when nothing is skipped; the failure kept is the first reported before or in the first failing stage, the same with and without sweeping all groups; a 0 return has kept one; no stage of a skipped group is run. |
| `MemCalibrate.Plan.SweepReportsTheSame` | hps_isw_handoff/soc_system_hps_0/sequencer.c:9243-9403 | Sweeping all groups and stopping at the first failure give the same verdict and the same first failure for all stage outcomes. |
| `MemCalibrate.Plan.RunIff` | hps_isw_handoff/soc_system_hps_0/sequencer.c:9203-9412 | Stopping at the first failure, a stage is run if and only if it is planned and every planned stage before it, by group, kind and number, passes. |
| `MemCalibrate.Plan.SweptIff` | hps_isw_handoff/soc_system_hps_0/sequencer.c:9203-9412 | Sweeping all groups, a stage is run if and only if it is planned and every earlier stage of its own group passes, the writes of other shadow registers aside; the read latency stage needs all to pass. |
| `MemCalibrate.Plan.VerdictMeans` | hps_isw_handoff/soc_system_hps_0/sequencer.c:9203-9412 | Calibration passes if and only if, for every group not skipped, both read stages of each of its read groups and the writes on each shadow register not skipped pass, and the read latency stage does when nothing is skipped. |
| `MemCalibrate.Plan.GroupJobsAre` | hps_isw_handoff/soc_system_hps_0/sequencer.c:9238-9323 | The stages planned for a group are exactly those. |
| `MemCalibrate.Plan.NextShift` | hps_isw_handoff/soc_system_hps_0/sequencer.c:9219-9225 | The bits of run_groups shifted out for a group are exactly those of that group, and it is skipped if and only if all its skip bits are set. |
| `MemCalibrate.FailureIsReported` | hps_isw_handoff/soc_system_hps_0/sequencer.c:591-603 | A run with a failing stage reports at least one failure, so the first is there. |
| `MemCalibrate.FirstFailureNames` | hps_isw_handoff/soc_system_hps_0/sequencer.c:591-611 | What the first failure says: what the first stage that reports reported, and if it fails without a report of its own stage 1 with its substage and read group for the read search, 4, 1 and the write group for the writes, 9, 3 and the read group for the read deskew after them, and 3, 1 and group 0xff for the read latency (sequencer.c:5995, 6132, 6207 and 8149; sequencer.h:136-156). |
| `MemCalibrate.NothingToName` | hps_isw_handoff/soc_system_hps_0/sequencer.c:591-611 | When every stage passes without a report, no failure is kept. |
| `MemCalibrate.FirstOfSum` | hps_isw_handoff/soc_system_hps_0/sequencer.c:595-601 | A later failure never replaces an earlier one. |
| `MemCalibrate.Plan.JobsAreOfGroupsTaken` | hps_isw_handoff/soc_system_hps_0/sequencer.c:9222-9225 | Every stage planned belongs to a group that is not skipped. |
| `FdTable.GetFdIsLeastFree` | nios_software/nios_ddr3_test_bsp/HAL/src/alt_get_fd.c:54-101 | The descriptor is the least free one and never a standard one, the high-water mark covers it, and it fails if and only if the table is full. |
| `FdTable.OpenSucceedsUnlessLocked` | nios_software/nios_ddr3_test_bsp/HAL/src/alt_open.c:105-171 | An open of a device succeeds if and only if there is a free descriptor, no descriptor of the device holds it exclusively, and the driver agrees. |
| `FdTable.FailedOpenKeepsEntries` | nios_software/nios_ddr3_test_bsp/HAL/src/alt_open.c:118-165 | A failed open leaves every entry as it was, except that the driver's open may have written the private data of the free entry it was given. |
| `FdTable.SuccessfulOpenTakesEntry` | nios_software/nios_ddr3_test_bsp/HAL/src/alt_open.c:105-171 | A successful open changes the least free entry only, which now refers to the target, not exclusively. |
| `FdTable.OpenFillsEntry` | nios_software/nios_ddr3_test_bsp/HAL/src/alt_open.c:105-171 | The entry opened keeps the caller's flags but for the two private bits, and the private data the driver left. |
| `FdTable.OpenErrorIs` | nios_software/nios_ddr3_test_bsp/HAL/src/alt_open.c:105-171 | The error of a failed open: 19 without a target, then 24 when the table is full, then 13 when the device is held, and else the driver's. |
| `FdTable.DoInv` | nios_software/nios_ddr3_test_bsp/HAL/src/alt_ioctl.c:106-168 | Open, close, ioctl, fcntl and redirect keep the invariant: standard descriptors allocated, live ones under the high-water mark, EXCL only on marked devices, and an exclusive holder at a lower index than any other user of its device. |
| `FdTable.ExclusionHoldsInEveryRun` | nios_software/nios_ddr3_test_bsp/HAL/src/alt_fd_lock.c:54-75 | In every run from start-up the standard descriptors stay allocated, at most one descriptor of a device is exclusive, and while one is no open of that device succeeds. |
| `FdTable.GrantedLockExcludes` | nios_software/nios_ddr3_test_bsp/HAL/src/alt_fd_lock.c:54-75 | A lock that is granted returns 0, marks its descriptor exclusive, changes no other entry and no other bit, and from then on every open of the device fails; one that is refused returns -13 and leaves the table as it was. |
| `FdTable.UnlockReleases` | nios_software/nios_ddr3_test_bsp/HAL/src/alt_fd_unlock.c:52-56 | Unlocking takes the mark away and changes nothing else. |
| `FdTable.LockIsGrantedToOnlyUserOrBelowTop` | nios_software/nios_ddr3_test_bsp/HAL/src/alt_fd_lock.c:61-71 | The lock is granted if and only if no other descriptor but the one at the high-water mark refers to the device; it agrees with its comment if and only if that one does not either or some third one does. |
| `FdTable.LockIsGrantedBesideSecondUser` | nios_software/nios_ddr3_test_bsp/HAL/src/alt_fd_lock.c:61-71 | Two opens of one device and a lock through the first: granted. |
| `FdTable.OtherRequestsPass` | nios_software/nios_ddr3_test_bsp/HAL/src/alt_ioctl.c:106-168 | Every other request, and any request on what is not a device, leaves the table alone and returns the driver's result, or -81 for a negative descriptor. |
| `FdTable.CloseFrees` | nios_software/nios_ddr3_test_bsp/HAL/src/alt_close.c:64-101 | Close frees a descriptor above 2 and no other, and passes on a negative result of the driver. |
| `FdTable.SetFlStoresStatus` | nios_software/nios_ddr3_test_bsp/HAL/src/alt_fcntl.c:66-101 | F_SETFL stores O_NONBLOCK and O_APPEND and no other bit, and no other command stores anything. |
| `FdTable.RedirectPointsAtTarget` | nios_software/nios_ddr3_test_bsp/HAL/src/alt_io_redirect.c:58-72 | A redirection that can open its target makes the standard descriptor refer to it with the caller's flags, frees the descriptor used on the way and keeps the other entries; one that cannot is a failed open. |
| `FdTable.StartsClosed` | nios_software/nios_ddr3_test_bsp/HAL/src/alt_dev.c:131-150 | At start-up the three standard descriptors are those of the null device, unmarked, and nothing else is open. |
| `FdList.FdList.GetFd` | nios_software/nios_ddr3_test_bsp/HAL/src/alt_get_fd.c:54-101 | The loop over the table in place equals the function the lemmas are about. |
| `FdList.FdList.FileLocked` | nios_software/nios_ddr3_test_bsp/HAL/src/alt_open.c:64-92 | Marks the entry as a device and finds out whether another descriptor holds the device. |
| `FdList.FdList.Open` | nios_software/nios_ddr3_test_bsp/HAL/src/alt_open.c:105-171 | The open in place, with its clean-up: table, return value and errno are those of the function, and the invariant is kept. |
| `FdList.FdList.FdLock` | nios_software/nios_ddr3_test_bsp/HAL/src/alt_fd_lock.c:54-75 | The lock scan in place, with its strict bound, equals the function. |
| `FdList.FdList.Ioctl` | nios_software/nios_ddr3_test_bsp/HAL/src/alt_ioctl.c:106-168 | The dispatch in place: table, return value and errno. |
| `FdList.FdList.Fcntl` | nios_software/nios_ddr3_test_bsp/HAL/src/alt_fcntl.c:66-101 | Status flags change, the two private bits neither change nor show. |
| `FdList.FdList.Close` | nios_software/nios_ddr3_test_bsp/HAL/src/alt_close.c:64-101 | The entry is released whatever the driver's close says. |
| `FdList.FdList.ReleaseFd` | nios_software/nios_ddr3_test_bsp/HAL/src/alt_release_fd.c:44-51 | Descriptors above 2 are freed, the others untouched. |
| `FdList.FdList.IoRedirect` | nios_software/nios_ddr3_test_bsp/HAL/src/alt_io_redirect.c:58-94 | The three redirections are a run of the table's operations in that order, so everything proved of runs holds across it. |
| `Mailbox.RunInv` | hps_isw_handoff/soc_system_hps_0/tclrpt.c:638-682 | With the command word written first, every interleaving with the host keeps the relation of words, firmware and host. |
| `Mailbox.SafeIffCommandFirst` | hps_isw_handoff/soc_system_hps_0/tclrpt.c:613-622 | In every interleaving posted commands are handled in order, once each, and an outstanding one is still in the command word, if and only if the command word is written before the status word. |
| `Mailbox.LostCommand` | hps_isw_handoff/soc_system_hps_0/tclrpt.c:613-622 | With the other order, four steps after which a posted command has been overwritten. |
| `Mailbox.PendingIsHandled` | hps_isw_handoff/soc_system_hps_0/tclrpt.c:661-682 | An outstanding command is handled by the third firmware step at the latest, whatever the host does. |
| `Mailbox.HandlingAnswers` | hps_isw_handoff/soc_system_hps_0/tclrpt.c:661-682 | Carrying a command out answers it in the same step, with ResponseReady if it is legal and IllegalCmd if not, and ends the loop if and only if it is a legal update of parameters. |
| `Mailbox.PendingIsAnswered` | hps_isw_handoff/soc_system_hps_0/tclrpt.c:661-682 | An outstanding command is answered so by the third firmware step at the latest, whatever the host does meanwhile. |
| `Mailbox.AnswerStays` | hps_isw_handoff/soc_system_hps_0/tclrpt.c:657-671 | The answer stays in the status word until the host has acknowledged it. |
| `Mailbox.AcknowledgedBecomesReady` | hps_isw_handoff/soc_system_hps_0/tclrpt.c:661-670 | After an acknowledgement, or on entering the loop, by the fourth firmware step at the latest the status is ready and the command word reset, whatever the host does meanwhile. |
| `TestPattern.WordsAreDistinct` | nios_software/nios_ddr3_test/mem_verify.c:27-37 | The 257 pattern words that start at 1 are pairwise distinct in 32-bit arithmetic, the four words put over the end included. |
| `TestPattern.PatternIs` | nios_software/nios_ddr3_test/mem_verify.c:27-37 | The pattern word by word: each 13 times the one before in 32-bit arithmetic, from the initial value on, and the four sentinels at the end. |
| `TestPattern.OrderOf13` | nios_software/nios_ddr3_test/mem_verify.c:28-33 | 13 to the k is 1 modulo 2 to the e only from k = 2 to the e - 2 on: why the chain does not repeat. |
| `TestPattern.AlternatingIsNoEarlyPower` | nios_software/nios_ddr3_test/mem_verify.c:35-35 | 0x55555555 is no power of 13 with an exponent the chain reaches. |
| `MemVerify.Memory.Verify` | nios_software/nios_ddr3_test/mem_verify.c:10-103 | On a memory with any address decoding, TRUE is returned if and only if every whole word of the range reads back the pattern word of its place, and, for a range of whole words, if and only if words that share storage expect the same. |
| `MemVerify.Memory.SharersAgreeMeansDistance` | nios_software/nios_ddr3_test/main.c:25-25 | With initial value 1 that is so if and only if words that share storage are a multiple of 257 words apart. |
| `MemVerify.Memory.StuckAddressLineIsFound` | nios_software/nios_ddr3_test/mem_verify.c:71-102 | In a memory that passes, no two words of the range a power of two apart share storage. |
| `NumberFormat.Port.CountDigits` | nios_software/nios_ddr3_test_bsp/HAL/src/alt_log_printf.c:248-256 | The number of digits and the place value of the first, which never overflows its word. |
| `NumberFormat.Port.PutDigits` | nios_software/nios_ddr3_test_bsp/HAL/src/alt_log_printf.c:280-296 | The division loop puts out the digits from the place value down, one for each place. |
| `NumberFormat.DigitsFromTop` | nios_software/nios_ddr3_test_bsp/HAL/src/alt_log_printf.c:280-296 | From the place of the leading digit down those are the usual representation. |
| `NumberFormat.Port.PrintInteger` | nios_software/nios_ddr3_test_bsp/HAL/src/alt_log_printf.c:206-297 | Sign, padding and digits of any 32-bit word in bases 8, 10 and 16, signed or not, for any width: the text the next rows describe. |
| `NumberFormat.PrintedParses` | nios_software/nios_ddr3_test_bsp/HAL/src/alt_log_printf.c:206-297 | The text reads back as the number, INT_MIN included, and is as long as the larger of the width and sign plus digits. |
| `NumberFormat.PaddingIs` | nios_software/nios_ddr3_test_bsp/HAL/src/alt_log_printf.c:258-279 | The digits come last; with leadingZero every character before them is a zero, after the sign if there is one, and without it a space, before the sign. |
| `NumberFormat.LettersAre` | nios_software/nios_ddr3_test_bsp/HAL/src/alt_log_printf.c:284-292 | Letters are upper case exactly when that is asked for. |
| `NumberFormat.Port.PrintHex` | nios_software/nios_ddr3_test_bsp/HAL/src/alt_printf.c:84-113 | Skipping clear nibbles and printing the rest puts out the usual hexadecimal representation. |
| `NumberFormat.HexAgrees` | nios_software/nios_ddr3_test_bsp/HAL/src/alt_log_printf.c:309-312 | The two %x conversions print the same if and only if the width, -1 when none is given, does not exceed the number of digits. |
| `Cache.DataCache.DcacheFlush` | nios_software/nios_ddr3_test_bsp/HAL/src/alt_dcache_flush.c:46-70 | For any alignment exactly the lines of the computed span are written back and dropped; no other slot or line of memory changes. |
| `Cache.RangeIsTouched` | nios_software/nios_ddr3_test_bsp/HAL/src/alt_dcache_flush.c:53-67 | That span holds the line of every byte of the range and at most one line beyond. |
| `Cache.FlushMakesMemoryTrue` | nios_software/nios_ddr3_test_bsp/HAL/src/alt_dcache_flush.c:40-44 | The processor reads everywhere what it read before, and throughout the span memory holds just that and nothing is cached. |
| `Cache.RangeIsTrue` | nios_software/nios_ddr3_test_bsp/HAL/src/alt_dcache_flush.c:46-70 | The same for every byte address of the caller's range. |
| `Cache.DataCache.DcacheFlushAll` | nios_software/nios_ddr3_test_bsp/HAL/src/alt_dcache_flush_all.c:41-51 | Every slot is written back and emptied. |
| `Cache.FlushAllMakesMemoryTrue` | nios_software/nios_ddr3_test_bsp/HAL/src/alt_dcache_flush_all.c:41-51 | Memory then holds what the processor read, everywhere. |
| `Cache.InstructionCache.IcacheFlush` | nios_software/nios_ddr3_test_bsp/HAL/src/alt_icache_flush.c:42-84 | Although a long range is cut to the size of the cache, no line of the whole range can be fetched from the cache afterwards. |
| `Cache.WindowMeetsSlot` | nios_software/nios_ddr3_test_bsp/HAL/src/alt_icache_flush.c:53-56 | Why cutting is enough: as many consecutive lines as there are slots meet every slot. |
| `Heap.Heap.Sbrk` | nios_software/nios_ddr3_test_bsp/HAL/src/alt_sbrk.c:68-136 | For non-negative increments: all blocks given out so far are word-aligned, inside the heap and pairwise apart; a request is granted if and only if it fits, at the word-aligned end, and one that is refused leaves the end there, so a smaller one can still be granted. |
| `Profiler.Profiler.Allocate` | nios_software/nios_ddr3_test_bsp/HAL/src/alt_gmon.c:133-148 | A piece starts at or past everything handed out before. |
| `Profiler.Profiler.SbrkElsewhere` | nios_software/nios_ddr3_test_bsp/HAL/src/alt_sbrk.c:68-136 | Memory taken by others meanwhile lies past the profiler's slab and leaves the profile as it was. |
| `Profiler.BucketOffset` | nios_software/nios_ddr3_test_bsp/HAL/src/alt_mcount.S:59-62 | The address shifted right by three and masked with 0xFC is the byte offset of the bucket. |
| `Profiler.Profiler.FindFn` | nios_software/nios_ddr3_test_bsp/HAL/src/alt_mcount.S:69-75 | The entry of the function if it is in its bucket, or no function has that address. |
| `Profiler.Profiler.FindArc` | nios_software/nios_ddr3_test_bsp/HAL/src/alt_mcount.S:77-84 | The arc of that caller if the function has one, or it has none. |
| `Profiler.Profiler.Record` | nios_software/nios_ddr3_test_bsp/HAL/src/alt_gmon.c:182-206 | The new arc points to the former first arc of its function and the function to it, a new function likewise in its bucket, and no other entry or head changes; the new pair counts 1 and no other count changes. |
| `Profiler.Profiler.Mcount` | nios_software/nios_ddr3_test_bsp/HAL/src/alt_mcount.S:50-123 | Every call adds one, in 32 bits, to the count of its pair of callee and caller and changes no other; entries never overlap, and lists, buckets and counts stay consistent. |
| `TickTimer.GetTotalCycles` | nios_software/video_app2/common.c:21-35 | The loop ends at the first turn without a tick in between, and the value belongs to the snapshot of that turn: it is the true cycle count if and only if the last tick interrupt had been served by then. |
| `TickTimer.LaterIsNotLess` | nios_software/video_app2/common.c:21-35 | A later call returns no less if and only if a tick was counted in between or the timer's place within its period has not gone back. |
| `TickTimer.SteadyTicksNeverGoBack` | nios_software/video_app2/common.c:21-35 | Results never decrease when the tick is up to date at the later snapshot, or always the same number of reloads behind. |
| `TickTimer.LateInterruptGoesBack` | nios_software/video_app2/common.c:32-34 | A tick history, with one interrupt served late, for which a later call returns less. |

## Left out

Statements that are weaker than one might wish:

- ReadDeskew.ReadPhy.VfifoCenter: OCT delays, the DQS enable delay (not shifted with DQS in this build) and the figure-of-merit and report fields are not modelled; a register write acts at once, without the SCC update strobe.
- WriteDeskew.WritePhy.WritesCenter: the OCT copy of the DQS output delay and the figure of merit are not modelled, nor is the restore of DQS on the no-window return, which the source does not do either.
- DqsEnable.DqsEnPhy.FindDqsEnPhase: a begin found at phase 1, whose end lags, and a fuzzy begin have their own cases in the contract; the debug margins and the VFIFO counter kept for reports are not stated.
- VfifoStage.Stage.Search: one shadow register set, not skipped, as in this build; the delay register after a success is whatever the deskew left, and guaranteed reads, DQS enable and deskew are answers that depend on the settings alone.
- MemCalibrate.Sequencer.MemCalibrate: each stage has one outcome of its own, independent of the order in which stages run; PLL, mode-register and margining steps, the non-destructive modes (disabled in this build) and the per-group report are not modelled. The read width is a multiple of the write width, so the group boundaries need no rounding.
- Mailbox.SafeIffCommandFirst: the host's rules (post only after READY, acknowledge only a response) are the protocol assumed; the contents of command parameters are not modelled. The loop is compiled only when the sequencer is not built for the HPS.
- MemVerify.Memory.Verify: byte lengths of 2^31 and more are not covered because the source counts bytes in a signed int; trailing bytes that do not fill a word are written and not verified, as in the source.
- NumberFormat.Port.PrintHex: a nibble is taken by division by a power of 16, which is what the mask and the shift by a multiple of four compute.
- Cache.DataCache.DcacheFlush: the range must not reach the last line of the 32-bit address space, where the source's pointers wrap; the bit-31 cache bypass is not modelled.
- Heap.Heap.Sbrk: negative increments, which give memory back, are not covered; the heap limit lies below 2^31, as it does on this board, so that the end never wraps.
- Profiler.Profiler.Mcount: the source does not check that sbrk succeeds, so the contract asks for memory to be there; entries are nodes at addresses, whose distances are proved, rather than bytes. The interrupt that may leave two copies of an arc, and the start of PC sampling, are not modelled.
- TickTimer.GetTotalCycles: a call that no turn without a tick would ever end is not covered; tick counts stay below 2^32.
- FdTable.DoInv: calls on descriptors outside the table or not open are not covered, since the source follows their NULL device pointer.

Parts of the repository that are not modelled:

- Register access, address mapping and RTL timing: replaced by register fields and oracles.
- Noisy reads: every test gives the same answer at the same settings; only the retries of the bit test may differ.
- Write levelling, QDR II, RLDRAM, DDR2, LPDDR and DIMM variants, quick and super-quick calibration, shadow registers, simulation modes: not selected by this build.
- The read-latency search, DRAM power-up, mode registers and hand-off: command sequences and one short loop that would only add easy members.
- Command parameters, rank masks and report structures of the debug interface.
- The directive parser of the two printf routines and their %c and %s conversions.
- Semaphores around the descriptor table, and what drivers do beyond their return values.
- HDMI, I2C, PLL, gamma and frame code, and the board tests.
