// mem_calibrate: the stages of every write group in turn, the two ways of going on
// after a failure, and the first failure, which is kept for the report.

module MemCalibrate {
  import opened BitVectors

  const CAL_STAGE_NIL: nat := 0
  const CAL_STAGE_VFIFO: nat := 1
  const CAL_STAGE_LFIFO: nat := 3
  const CAL_STAGE_WRITES: nat := 4
  const CAL_STAGE_VFIFO_AFTER_WRITES: nat := 9
  const CAL_SUBSTAGE_NIL: nat := 0
  const CAL_SUBSTAGE_VFIFO_CENTER: nat := 3
  const CAL_SUBSTAGE_WRITES_CENTER: nat := 1
  const CAL_SUBSTAGE_READ_LATENCY: nat := 1

  datatype Failure = Failure(stage: nat, substage: nat, group: nat)

  // What the report holds while nothing has failed.
  const NO_FAILURE: Failure := Failure(CAL_STAGE_NIL, CAL_SUBSTAGE_NIL, 0xff)

  // One call of a calibration stage, for a write group.
  datatype Job =
    | Vfifo(group: nat, readGroup: nat)
    | Writes(group: nat, sr: nat)
    | VfifoEnd(group: nat, readGroup: nat)
    | Lfifo

  // What the algorithm inside a stage does: whether it succeeds, the failures it
  // reports on the way (passing attempts may report some too), and the step it was
  // at when it gave up.
  datatype Attempt = Attempt(pass: bool, reported: seq<Failure>, substage: nat)

  // Every failure names a stage.
  ghost predicate NamesStages(out: Job -> Attempt) {
    forall j: Job, i :: 0 <= i < |out(j).reported| ==> out(j).reported[i].stage != CAL_STAGE_NIL
  }

  // What the stage itself reports when its algorithm did not succeed.
  function StageFailure(job: Job, substage: nat): (f: Failure)
    ensures f.stage != CAL_STAGE_NIL
  {
    match job
    case Vfifo(_, r) => Failure(CAL_STAGE_VFIFO, substage, r)
    case Writes(g, _) => Failure(CAL_STAGE_WRITES, CAL_SUBSTAGE_WRITES_CENTER, g)
    case VfifoEnd(_, r) => Failure(CAL_STAGE_VFIFO_AFTER_WRITES, CAL_SUBSTAGE_VFIFO_CENTER, r)
    case Lfifo => Failure(CAL_STAGE_LFIFO, CAL_SUBSTAGE_READ_LATENCY, 0xff)
  }

  // All a stage reports, in order.
  function Reported(job: Job, out: Job -> Attempt): (r: seq<Failure>)
    ensures !out(job).pass ==> r != []
  {
    var a := out(job);
    if a.pass then a.reported else a.reported + [StageFailure(job, a.substage)]
  }

  // ---------- runs of stages ----------

  predicate AllPass(jobs: seq<Job>, out: Job -> Attempt) {
    jobs == [] || (out(jobs[0]).pass && AllPass(jobs[1..], out))
  }

  // The jobs up to the first that fails, that one included.
  function UpToFailure(jobs: seq<Job>, out: Job -> Attempt): seq<Job> {
    if jobs == [] then []
    else if !out(jobs[0]).pass then [jobs[0]]
    else [jobs[0]] + UpToFailure(jobs[1..], out)
  }

  // The first failure reported in a run.
  function First(jobs: seq<Job>, out: Job -> Attempt): Failure {
    if jobs == [] then NO_FAILURE
    else if Reported(jobs[0], out) != [] then Reported(jobs[0], out)[0]
    else First(jobs[1..], out)
  }

  // A later failure does not replace an earlier one.
  function Keep(f: Failure, later: Failure): Failure {
    if f.stage == CAL_STAGE_NIL then later else f
  }

  lemma {:induction false} AllPassMeans(jobs: seq<Job>, out: Job -> Attempt)
    ensures AllPass(jobs, out) <==> forall j :: j in jobs ==> out(j).pass
  {
    if jobs != [] {
      AllPassMeans(jobs[1..], out);
      assert jobs == [jobs[0]] + jobs[1..];
    }
  }

  lemma {:induction false} AllPassOfSum(a: seq<Job>, b: seq<Job>, out: Job -> Attempt)
    ensures AllPass(a + b, out) <==> AllPass(a, out) && AllPass(b, out)
  {
    if a == [] {
      assert a + b == b;
    } else {
      assert (a + b)[1..] == a[1..] + b;
      AllPassOfSum(a[1..], b, out);
    }
  }

  lemma {:induction false} UpToFailureOfSum(a: seq<Job>, b: seq<Job>, out: Job -> Attempt)
    ensures UpToFailure(a + b, out) == if AllPass(a, out) then a + UpToFailure(b, out) else UpToFailure(a, out)
  {
    if a == [] {
      assert a + b == b;
    } else {
      assert (a + b)[1..] == a[1..] + b;
      UpToFailureOfSum(a[1..], b, out);
      assert a == [a[0]] + a[1..];
      assert [a[0]] + (a[1..] + UpToFailure(b, out)) == a + UpToFailure(b, out);
    }
  }

  lemma {:induction false} UpToFailureOfPassing(jobs: seq<Job>, out: Job -> Attempt)
    ensures AllPass(jobs, out) ==> UpToFailure(jobs, out) == jobs
    ensures AllPass(UpToFailure(jobs, out), out) == AllPass(jobs, out)
    ensures forall j :: j in UpToFailure(jobs, out) ==> j in jobs
  {
    if jobs != [] {
      UpToFailureOfPassing(jobs[1..], out);
      assert jobs == [jobs[0]] + jobs[1..];
    }
  }

  lemma {:induction false} FirstOfSum(a: seq<Job>, b: seq<Job>, out: Job -> Attempt)
    requires NamesStages(out)
    ensures First(a + b, out) == Keep(First(a, out), First(b, out))
  {
    hide NamesStages;
    if a == [] {
      assert a + b == b;
    } else {
      assert (a + b)[1..] == a[1..] + b;
      FirstOfSum(a[1..], b, out);
      ReportedNamesStages(a[0], out);
    }
  }

  lemma ReportedNamesStages(job: Job, out: Job -> Attempt)
    requires NamesStages(out)
    ensures forall i :: 0 <= i < |Reported(job, out)| ==> Reported(job, out)[i].stage != CAL_STAGE_NIL
  {
  }

  // A run with a failing stage has a first failure.
  lemma {:induction false} FailureIsReported(jobs: seq<Job>, out: Job -> Attempt)
    requires NamesStages(out) && !AllPass(jobs, out)
    ensures First(jobs, out).stage != CAL_STAGE_NIL
  {
    hide NamesStages;
    ReportedNamesStages(jobs[0], out);
    if Reported(jobs[0], out) == [] {
      FailureIsReported(jobs[1..], out);
    }
  }

  // What the first failure names, when nothing before job reported any: the first one
  // its algorithm reported, or else the stage, how far it had come, and the group.
  lemma {:induction false} FirstFailureNames(before: seq<Job>, job: Job, after: seq<Job>, out: Job -> Attempt)
    requires forall j :: j in before ==> out(j).pass && out(j).reported == []
    requires !out(job).pass || out(job).reported != []
    ensures First(before + [job] + after, out)
            == if out(job).reported != [] then out(job).reported[0]
               else match job
                 case Vfifo(_, r) => Failure(1, out(job).substage, r)
                 case Writes(g, _) => Failure(4, 1, g)
                 case VfifoEnd(_, r) => Failure(9, 3, r)
                 case Lfifo => Failure(3, 1, 0xff)
    decreases before
  {
    var jobs := before + [job] + after;
    if before != [] {
      assert jobs[0] == before[0] && jobs[1..] == before[1..] + [job] + after;
      assert before[0] in before;
      FirstFailureNames(before[1..], job, after, out);
    } else {
      assert jobs[0] == job;
    }
  }

  // Without any report the one kept names no stage.
  lemma {:induction false} NothingToName(jobs: seq<Job>, out: Job -> Attempt)
    requires forall j :: j in jobs ==> out(j).pass && out(j).reported == []
    ensures First(jobs, out) == Failure(0, 0, 0xff)
  {
    if jobs != [] {
      assert jobs[0] in jobs;
      NothingToName(jobs[1..], out);
    }
  }

  // ---------- the order of the stages ----------

  // Where a stage of a group comes among those of the group.
  function Place(job: Job): nat {
    match job
    case Vfifo(_, _) => 0
    case Writes(_, _) => 1
    case VfifoEnd(_, _) => 2
    case Lfifo => 3
  }

  function Number(job: Job): nat {
    match job
    case Vfifo(_, r) => r
    case Writes(_, sr) => sr
    case VfifoEnd(_, r) => r
    case Lfifo => 0
  }

  // Groups in turn; in each the reads, the writes, and the reads again; the read
  // latency last.
  predicate ComesBefore(a: Job, b: Job) {
    && !a.Lfifo?
    && (b.Lfifo? || a.group < b.group
        || (a.group == b.group
            && (Place(a) < Place(b) || (Place(a) == Place(b) && Number(a) < Number(b)))))
  }

  // A failure of a keeps b from being run even when all groups are swept: b is a later
  // stage of the same group, not the writes of another shadow register, or it is the
  // read latency.
  predicate Blocks(a: Job, b: Job) {
    ComesBefore(a, b) && (b.Lfifo? || (a.group == b.group && !(a.Writes? && b.Writes?)))
  }

  ghost predicate InOrder(jobs: seq<Job>) {
    forall i, j :: 0 <= i < j < |jobs| ==> ComesBefore(jobs[i], jobs[j])
  }

  lemma InOrderSum(a: seq<Job>, b: seq<Job>)
    requires InOrder(a) && InOrder(b) && forall j, k :: j in a && k in b ==> ComesBefore(j, k)
    ensures InOrder(a + b)
  {
    hide ComesBefore;
  }

  // Up to the first failure, a stage is run exactly when all before it pass.
  lemma {:induction false} DoneIff(jobs: seq<Job>, job: Job, out: Job -> Attempt)
    requires InOrder(jobs)
    ensures job in UpToFailure(jobs, out)
            <==> job in jobs && forall k :: k in jobs && ComesBefore(k, job) ==> out(k).pass
  {
    if jobs != [] {
      var first, rest := jobs[0], jobs[1..];
      assert jobs == [first] + rest;
      forall k | k in rest
        ensures ComesBefore(first, k) && !ComesBefore(k, first) && k != first
      {
        var i :| 0 <= i < |rest| && rest[i] == k;
        assert jobs[i + 1] == k;
      }
      DoneIff(rest, job, out);
    }
  }

  // ---------- the plan ----------

  // Geometry and debug masks: perGroup read groups, RW_MGR_NUM_DQS_PER_WRITE_GROUP,
  // to each of writeWidth write groups.
  datatype Plan = Plan(perGroup: nat, writeWidth: nat, skipGroups: Bits, skipShadowRegs: seq<bool>) {
    ghost predicate Valid() {
      perGroup < 32 && |skipGroups| == 32
    }

    // g * RW_MGR_MEM_IF_READ_DQS_WIDTH / RW_MGR_MEM_IF_WRITE_DQS_WIDTH
    function FirstRead(g: nat): nat {
      g * perGroup
    }

    lemma NextFirst(g: nat)
      ensures FirstRead(0) == 0 && FirstRead(g + 1) == FirstRead(g) + perGroup
    {
    }

    // Every skip_groups bit of group g is set, bits past the word counting as set.
    ghost predicate Skipped(g: nat)
      requires Valid()
    {
      forall b :: FirstRead(g) <= b < FirstRead(g) + perGroup && b < 32 ==> skipGroups[b]
    }

    function ReadJobs(g: nat, end: bool, lo: nat, hi: int): seq<Job>
      decreases hi - lo
    {
      if lo >= hi then []
      else [if end then VfifoEnd(g, lo) else Vfifo(g, lo)] + ReadJobs(g, end, lo + 1, hi)
    }

    function WriteJobs(g: nat, sr: nat): seq<Job>
      decreases |skipShadowRegs| - sr
    {
      if sr >= |skipShadowRegs| then []
      else (if skipShadowRegs[sr] then [] else [Writes(g, sr)]) + WriteJobs(g, sr + 1)
    }

    lemma ReadStep(g: nat, end: bool, lo: nat, hi: int)
      ensures lo < hi ==> ReadJobs(g, end, lo, hi)
                          == [if end then VfifoEnd(g, lo) else Vfifo(g, lo)] + ReadJobs(g, end, lo + 1, hi)
      ensures lo >= hi ==> ReadJobs(g, end, lo, hi) == []
    {
    }

    lemma WriteStep(g: nat, sr: nat)
      ensures sr < |skipShadowRegs| && skipShadowRegs[sr] ==> WriteJobs(g, sr) == WriteJobs(g, sr + 1)
      ensures sr < |skipShadowRegs| && !skipShadowRegs[sr]
              ==> WriteJobs(g, sr) == [Writes(g, sr)] + WriteJobs(g, sr + 1)
      ensures sr >= |skipShadowRegs| ==> WriteJobs(g, sr) == []
    {
    }

    // The reads of group g, before or after its writes.
    function Reads(g: nat, end: bool): seq<Job>
    {
      ReadJobs(g, end, FirstRead(g), FirstRead(g + 1))
    }

    // Everything there is to do for a group, and for the first k groups.
    function GroupJobs(g: nat): seq<Job>
    {
      Reads(g, false) + WriteJobs(g, 0) + Reads(g, true)
    }

    ghost function JobsBelow(k: nat): seq<Job>
      requires Valid()
    {
      if k == 0 then [] else JobsBelow(k - 1) + if Skipped(k - 1) then [] else GroupJobs(k - 1)
    }

    ghost function AllJobs(): seq<Job>
      requires Valid()
    {
      JobsBelow(writeWidth) + if AnySet(skipGroups) then [] else [Lfifo]
    }

    // What is done for a group when every group is to be swept: a failed read stops
    // the reads of the group, a failed write does not stop the writes, and neither
    // stops the other groups.
    function SweptGroup(g: nat, out: Job -> Attempt): seq<Job>
    {
      if !AllPass(Reads(g, false), out) then UpToFailure(Reads(g, false), out)
      else if !AllPass(WriteJobs(g, 0), out) then Reads(g, false) + WriteJobs(g, 0)
      else Reads(g, false) + WriteJobs(g, 0) + UpToFailure(Reads(g, true), out)
    }

    ghost function SweptBelow(k: nat, out: Job -> Attempt): seq<Job>
      requires Valid()
    {
      if k == 0 then [] else SweptBelow(k - 1, out) + if Skipped(k - 1) then [] else SweptGroup(k - 1, out)
    }

    ghost function SweptAll(out: Job -> Attempt): seq<Job>
      requires Valid()
    {
      SweptBelow(writeWidth, out)
      + if AllPass(JobsBelow(writeWidth), out) && !AnySet(skipGroups) then [Lfifo] else []
    }

    // ---------- both ways of going on agree ----------

    // Sweeping a group starts with what would be done without sweeping.
    lemma SweptGroupStarts(g: nat, out: Job -> Attempt)
      requires Valid()
      ensures UpToFailure(GroupJobs(g), out) <= SweptGroup(g, out)
      ensures AllPass(GroupJobs(g), out) ==> SweptGroup(g, out) == GroupJobs(g)
    {
      hide AllPass, UpToFailure, Reads, WriteJobs;
      var a, w, b := Reads(g, false), WriteJobs(g, 0), Reads(g, true);
      GroupSplits(g, out);
      UpToFailureOfPassing(a, out);
      UpToFailureOfPassing(b, out);
      UpToFailureIsPrefix(w, out);
    }

    lemma GroupSplits(g: nat, out: Job -> Attempt)
      ensures AllPass(GroupJobs(g), out)
              <==> AllPass(Reads(g, false), out) && AllPass(WriteJobs(g, 0), out) && AllPass(Reads(g, true), out)
      ensures UpToFailure(GroupJobs(g), out)
              == if !AllPass(Reads(g, false), out) then UpToFailure(Reads(g, false), out)
                 else if !AllPass(WriteJobs(g, 0), out) then Reads(g, false) + UpToFailure(WriteJobs(g, 0), out)
                 else Reads(g, false) + WriteJobs(g, 0) + UpToFailure(Reads(g, true), out)
    {
      hide AllPass, UpToFailure, Reads, WriteJobs;
      var a, w, b := Reads(g, false), WriteJobs(g, 0), Reads(g, true);
      AllPassOfSum(a + w, b, out);
      AllPassOfSum(a, w, out);
      UpToFailureOfSum(a + w, b, out);
      UpToFailureOfSum(a, w, out);
    }

    lemma {:induction false} SweptBelowStarts(k: nat, out: Job -> Attempt)
      requires Valid()
      ensures UpToFailure(JobsBelow(k), out) <= SweptBelow(k, out)
      ensures AllPass(JobsBelow(k), out) ==> SweptBelow(k, out) == JobsBelow(k)
    {
      hide AllPass, UpToFailure, GroupJobs, SweptGroup, Skipped, FirstRead;
      if k == 0 {
        UpToFailureIsPrefix([], out);
      } else {
        SweptBelowStarts(k - 1, out);
        SweptGroupStarts(k - 1, out);
        var before := JobsBelow(k - 1);
        var now := if Skipped(k - 1) then [] else GroupJobs(k - 1);
        UpToFailureOfSum(before, now, out);
        AllPassOfSum(before, now, out);
        UpToFailureIsPrefix([], out);
      }
    }

    lemma SweptAllStarts(out: Job -> Attempt)
      requires Valid()
      ensures UpToFailure(AllJobs(), out) <= SweptAll(out)
      ensures AllPass(AllJobs(), out) ==> SweptAll(out) == AllJobs()
    {
      hide AllPass, UpToFailure, JobsBelow, SweptBelow, FirstRead, AnySet;
      SweptBelowStarts(writeWidth, out);
      var groups := JobsBelow(writeWidth);
      var last := if AnySet(skipGroups) then [] else [Lfifo];
      UpToFailureOfSum(groups, last, out);
      AllPassOfSum(groups, last, out);
      UpToFailureIsPrefix(last, out);
    }

    // Whether or not all groups are swept, the first failure kept is the same, it is
    // there when a stage failed, and without a failure the same stages are run.
    lemma SweepReportsTheSame(out: Job -> Attempt)
      requires Valid() && NamesStages(out)
      ensures First(SweptAll(out), out) == First(UpToFailure(AllJobs(), out), out)
      ensures AllPass(SweptAll(out), out) == AllPass(AllJobs(), out)
      ensures !AllPass(AllJobs(), out) ==> First(SweptAll(out), out).stage != CAL_STAGE_NIL
    {
      hide AllPass, UpToFailure, AllJobs, SweptAll, NamesStages, FirstRead, First;
      SweptAllStarts(out);
      UpToFailureOfPassing(AllJobs(), out);
      if !AllPass(AllJobs(), out) {
        FirstOfExtension(UpToFailure(AllJobs(), out), SweptAll(out), out);
        FailureIsReported(UpToFailure(AllJobs(), out), out);
      }
    }

    // Skipped groups take no part.
    lemma {:induction false} JobsAreOfGroupsTaken(k: nat, job: Job)
      requires Valid() && job in JobsBelow(k)
      ensures !job.Lfifo? && job.group < k && !Skipped(job.group)
    {
      hide Skipped, FirstRead, GroupJobs;
      if k > 0 && job in JobsBelow(k - 1) {
        JobsAreOfGroupsTaken(k - 1, job);
      } else if k > 0 && job in GroupJobs(k - 1) {
        JobsAreOfGroup(k - 1, job);
      }
    }

    lemma JobsAreOfGroup(g: nat, job: Job)
      requires job in GroupJobs(g)
      ensures !job.Lfifo? && job.group == g
    {
      ReadJobsAreOfGroup(g, false, FirstRead(g), FirstRead(g + 1));
      ReadJobsAreOfGroup(g, true, FirstRead(g), FirstRead(g + 1));
      WriteJobsAreOfGroup(g, 0);
    }

    lemma {:induction false} ReadJobsAreOfGroup(g: nat, end: bool, lo: nat, hi: int)
      ensures forall j :: j in ReadJobs(g, end, lo, hi) ==> !j.Lfifo? && j.group == g
      decreases hi - lo
    {
      if lo < hi {
        ReadJobsAreOfGroup(g, end, lo + 1, hi);
      }
    }

    // What there is to do for a group: every read group of it twice, and every shadow
    // register that is not skipped.
    lemma GroupJobsAre(g: nat, job: Job)
      ensures job in GroupJobs(g) <==>
                match job
                case Vfifo(h, r) => h == g && FirstRead(g) <= r < FirstRead(g + 1)
                case Writes(h, sr) => h == g && sr < |skipShadowRegs| && !skipShadowRegs[sr]
                case VfifoEnd(h, r) => h == g && FirstRead(g) <= r < FirstRead(g + 1)
                case Lfifo => false
    {
      hide FirstRead;
      ReadJobsAre(g, false, FirstRead(g), FirstRead(g + 1), job);
      ReadJobsAre(g, true, FirstRead(g), FirstRead(g + 1), job);
      WriteJobsAre(g, 0, job);
    }

    lemma {:induction false} ReadJobsAre(g: nat, end: bool, lo: nat, hi: int, job: Job)
      ensures job in ReadJobs(g, end, lo, hi)
              <==> (if end then job.VfifoEnd? else job.Vfifo?) && job.group == g && lo <= job.readGroup < hi
      decreases hi - lo
    {
      if lo < hi {
        ReadJobsAre(g, end, lo + 1, hi, job);
      }
    }

    lemma {:induction false} WriteJobsAre(g: nat, sr: nat, job: Job)
      ensures job in WriteJobs(g, sr)
              <==> job.Writes? && job.group == g && sr <= job.sr < |skipShadowRegs| && !skipShadowRegs[job.sr]
      decreases |skipShadowRegs| - sr
    {
      if sr < |skipShadowRegs| {
        WriteJobsAre(g, sr + 1, job);
      }
    }

    lemma {:induction false} WriteJobsAreOfGroup(g: nat, sr: nat)
      ensures forall j :: j in WriteJobs(g, sr) ==> !j.Lfifo? && j.group == g
      decreases |skipShadowRegs| - sr
    {
      if sr < |skipShadowRegs| {
        WriteJobsAreOfGroup(g, sr + 1);
      }
    }

    // One more group.
    lemma StepBelow(k: nat, out: Job -> Attempt)
      requires Valid()
      ensures JobsBelow(k + 1) == JobsBelow(k) + if Skipped(k) then [] else GroupJobs(k)
      ensures SweptBelow(k + 1, out) == SweptBelow(k, out) + if Skipped(k) then [] else SweptGroup(k, out)
      ensures AllPass(JobsBelow(k + 1), out)
              == (AllPass(JobsBelow(k), out) && (Skipped(k) || AllPass(GroupJobs(k), out)))
      ensures UpToFailure(JobsBelow(k + 1), out)
              == if !AllPass(JobsBelow(k), out) then UpToFailure(JobsBelow(k), out)
                 else JobsBelow(k) + if Skipped(k) then [] else UpToFailure(GroupJobs(k), out)
    {
      hide AllPass, UpToFailure, GroupJobs, SweptGroup, Skipped, FirstRead;
      NoJobs(out);
      var now := if Skipped(k) then [] else GroupJobs(k);
      AllPassOfSum(JobsBelow(k), now, out);
      UpToFailureOfSum(JobsBelow(k), now, out);
    }

    // The bits shifted out are those of the group.
    lemma NextShift(run: Bits, g: nat)
      requires Valid() && Shifted(run, skipGroups, FirstRead(g))
      ensures perGroup <= |run|
      ensures AnySet(run[..perGroup]) == !Skipped(g)
      ensures Shifted(run[perGroup..] + AllClear(perGroup), skipGroups, FirstRead(g + 1))
    {
      hide FirstRead;
      NextFirst(g);
      ShiftMore(run, skipGroups, FirstRead(g), perGroup);
      BitsOut(run, skipGroups, FirstRead(g), perGroup);
    }

    // A failure among the first k groups settles it all.
    lemma {:induction false} StopsHere(k: nat, out: Job -> Attempt)
      requires Valid() && k <= writeWidth && !AllPass(JobsBelow(k), out)
      ensures !AllPass(AllJobs(), out) && UpToFailure(AllJobs(), out) == UpToFailure(JobsBelow(k), out)
      decreases writeWidth - k
    {
      hide AllPass, UpToFailure, GroupJobs, SweptGroup, Skipped, FirstRead, AnySet;
      if k == writeWidth {
        var last := if AnySet(skipGroups) then [] else [Lfifo];
        AllPassOfSum(JobsBelow(k), last, out);
        UpToFailureOfSum(JobsBelow(k), last, out);
      } else {
        StepBelow(k, out);
        StopsHere(k + 1, out);
      }
    }

    lemma FailsBelow(out: Job -> Attempt)
      requires Valid() && !AllPass(JobsBelow(writeWidth), out)
      ensures !AllPass(AllJobs(), out) && SweptAll(out) == SweptBelow(writeWidth, out)
    {
      hide AllPass, UpToFailure, JobsBelow, SweptBelow, FirstRead, AnySet;
      AllPassOfSum(JobsBelow(writeWidth), if AnySet(skipGroups) then [] else [Lfifo], out);
    }

    // With all groups passing only the read latency is left to do.
    lemma LastStage(out: Job -> Attempt)
      requires Valid() && AllPass(JobsBelow(writeWidth), out)
      ensures var last := if AnySet(skipGroups) then [] else [Lfifo];
              && SweptAll(out) == SweptBelow(writeWidth, out) + last
              && UpToFailure(AllJobs(), out) == JobsBelow(writeWidth) + last
      ensures AllPass(AllJobs(), out) == (AnySet(skipGroups) || out(Lfifo).pass)
    {
      hide AllPass, JobsBelow, SweptBelow, FirstRead, AnySet;
      var last := if AnySet(skipGroups) then [] else [Lfifo];
      OneJob(Lfifo, out);
      AllPassOfSum(JobsBelow(writeWidth), last, out);
      UpToFailureOfSum(JobsBelow(writeWidth), last, out);
    }

    // ---------- which stages are run ----------

    lemma {:induction false} ReadsInOrder(g: nat, end: bool, lo: nat, hi: int)
      ensures InOrder(ReadJobs(g, end, lo, hi))
      decreases hi - lo
    {
      if lo < hi {
        ReadsInOrder(g, end, lo + 1, hi);
        var first := if end then VfifoEnd(g, lo) else Vfifo(g, lo);
        forall k | k in ReadJobs(g, end, lo + 1, hi)
          ensures ComesBefore(first, k)
        {
          ReadJobsAre(g, end, lo + 1, hi, k);
        }
        InOrderSum([first], ReadJobs(g, end, lo + 1, hi));
      }
    }

    lemma {:induction false} WritesInOrder(g: nat, sr: nat)
      ensures InOrder(WriteJobs(g, sr))
      decreases |skipShadowRegs| - sr
    {
      if sr < |skipShadowRegs| {
        WritesInOrder(g, sr + 1);
        forall k | k in WriteJobs(g, sr + 1)
          ensures ComesBefore(Writes(g, sr), k)
        {
          WriteJobsAre(g, sr + 1, k);
        }
        InOrderSum(if skipShadowRegs[sr] then [] else [Writes(g, sr)], WriteJobs(g, sr + 1));
      }
    }

    lemma GroupInOrder(g: nat)
      ensures InOrder(GroupJobs(g))
    {
      hide InOrder, FirstRead;
      var a, w, b := Reads(g, false), WriteJobs(g, 0), Reads(g, true);
      ReadsInOrder(g, false, FirstRead(g), FirstRead(g + 1));
      ReadsInOrder(g, true, FirstRead(g), FirstRead(g + 1));
      WritesInOrder(g, 0);
      PartsAre(g);
      InOrderSum(a, w);
      InOrderSum(a + w, b);
    }

    // Each part of a group's stages is of one kind.
    lemma PartsAre(g: nat)
      ensures forall k :: k in Reads(g, false) ==> k.Vfifo? && k.group == g
      ensures forall k :: k in WriteJobs(g, 0) ==> k.Writes? && k.group == g
      ensures forall k :: k in Reads(g, true) ==> k.VfifoEnd? && k.group == g
    {
      hide FirstRead;
      forall k: Job
        ensures k in Reads(g, false) ==> k.Vfifo? && k.group == g
        ensures k in WriteJobs(g, 0) ==> k.Writes? && k.group == g
        ensures k in Reads(g, true) ==> k.VfifoEnd? && k.group == g
      {
        ReadJobsAre(g, false, FirstRead(g), FirstRead(g + 1), k);
        WriteJobsAre(g, 0, k);
        ReadJobsAre(g, true, FirstRead(g), FirstRead(g + 1), k);
      }
    }

    lemma {:induction false} BelowInOrder(n: nat)
      requires Valid()
      ensures InOrder(JobsBelow(n))
    {
      hide GroupJobs, Skipped, FirstRead, InOrder;
      if n == 0 {
        NoneInOrder();
      } else {
        BelowInOrder(n - 1);
        GroupInOrder(n - 1);
        NoneInOrder();
        forall j, k | j in JobsBelow(n - 1) && k in GroupJobs(n - 1)
          ensures ComesBefore(j, k)
        {
          JobsAreOfGroupsTaken(n - 1, j);
          JobsAreOfGroup(n - 1, k);
        }
        InOrderSum(JobsBelow(n - 1), if Skipped(n - 1) then [] else GroupJobs(n - 1));
      }
    }

    lemma NoneInOrder()
      ensures InOrder([]) && InOrder([Lfifo])
    {
    }

    // Without sweeping, a stage is run exactly when it is planned and every stage
    // before it passes.
    lemma RunIff(job: Job, out: Job -> Attempt)
      requires Valid()
      ensures job in UpToFailure(AllJobs(), out)
              <==> job in AllJobs() && forall k :: k in AllJobs() && ComesBefore(k, job) ==> out(k).pass
    {
      hide GroupJobs, Skipped, FirstRead, InOrder, JobsBelow, AnySet, UpToFailure;
      BelowInOrder(writeWidth);
      NoneInOrder();
      forall j | j in JobsBelow(writeWidth)
        ensures ComesBefore(j, Lfifo)
      {
        JobsAreOfGroupsTaken(writeWidth, j);
      }
      InOrderSum(JobsBelow(writeWidth), if AnySet(skipGroups) then [] else [Lfifo]);
      DoneIff(AllJobs(), job, out);
    }

    // The same in one group when all groups are swept.
    lemma SweptGroupIff(g: nat, job: Job, out: Job -> Attempt)
      ensures job in SweptGroup(g, out)
              <==> job in GroupJobs(g) && forall k :: k in GroupJobs(g) && Blocks(k, job) ==> out(k).pass
    {
      hide Reads, WriteJobs, InOrder, AllPass, UpToFailure, FirstRead;
      var a, w, b := Reads(g, false), WriteJobs(g, 0), Reads(g, true);
      PartsAre(g);
      PartsInOrder(g);
      DoneIff(a, job, out);
      DoneIff(b, job, out);
      AllPassMeans(a, out);
      AllPassMeans(w, out);
      UpToFailureOfPassing(a, out);
    }

    lemma PartsInOrder(g: nat)
      ensures InOrder(Reads(g, false)) && InOrder(Reads(g, true))
    {
      hide InOrder, FirstRead;
      ReadsInOrder(g, false, FirstRead(g), FirstRead(g + 1));
      ReadsInOrder(g, true, FirstRead(g), FirstRead(g + 1));
    }

    lemma {:induction false} BelowIff(n: nat, job: Job, out: Job -> Attempt)
      requires Valid()
      ensures job in JobsBelow(n)
              <==> !job.Lfifo? && job.group < n && !Skipped(job.group) && job in GroupJobs(job.group)
      ensures job in SweptBelow(n, out)
              <==> !job.Lfifo? && job.group < n && !Skipped(job.group) && job in SweptGroup(job.group, out)
    {
      hide GroupJobs, SweptGroup, Skipped, FirstRead;
      if n > 0 {
        BelowIff(n - 1, job, out);
        SweptGroupIsPlanned(n - 1, out);
        if job in GroupJobs(n - 1) {
          JobsAreOfGroup(n - 1, job);
        }
      }
    }

    // When all groups are swept, a stage is run exactly when it is planned and no stage
    // that blocks it fails.
    lemma SweptIff(job: Job, out: Job -> Attempt)
      requires Valid()
      ensures job in SweptAll(out)
              <==> job in AllJobs() && forall k :: k in AllJobs() && Blocks(k, job) ==> out(k).pass
    {
      hide GroupJobs, SweptGroup, Skipped, FirstRead, JobsBelow, SweptBelow, AnySet, AllPass;
      BelowIff(writeWidth, job, out);
      forall k: Job
        ensures k in JobsBelow(writeWidth)
                <==> !k.Lfifo? && k.group < writeWidth && !Skipped(k.group) && k in GroupJobs(k.group)
      {
        BelowIff(writeWidth, k, out);
      }
      if job.Lfifo? {
        AllPassMeans(JobsBelow(writeWidth), out);
      } else {
        SweptGroupIff(job.group, job, out);
        forall k | k in GroupJobs(job.group)
          ensures !k.Lfifo? && k.group == job.group
        {
          JobsAreOfGroup(job.group, k);
        }
      }
    }

    // The stage may be run at all.
    ghost predicate Takes(job: Job)
      requires Valid()
    {
      if job.Lfifo? then !AnySet(skipGroups) else job.group < writeWidth && !Skipped(job.group)
    }

    lemma PlannedIsTaken(job: Job)
      requires Valid() && job in AllJobs()
      ensures Takes(job)
    {
      hide FirstRead, JobsBelow, Skipped, AnySet;
      if job in JobsBelow(writeWidth) {
        JobsAreOfGroupsTaken(writeWidth, job);
      }
    }

    lemma SweptGroupIsPlanned(g: nat, out: Job -> Attempt)
      ensures forall j :: j in SweptGroup(g, out) ==> j in GroupJobs(g)
    {
      hide AllPass, Reads, WriteJobs, UpToFailure;
      UpToFailureOfPassing(Reads(g, false), out);
      UpToFailureOfPassing(Reads(g, true), out);
    }

    lemma {:induction false} SweptBelowIsPlanned(k: nat, out: Job -> Attempt)
      requires Valid()
      ensures forall j :: j in SweptBelow(k, out) ==> j in JobsBelow(k)
    {
      hide GroupJobs, SweptGroup, Skipped, FirstRead;
      if k > 0 {
        SweptBelowIsPlanned(k - 1, out);
        SweptGroupIsPlanned(k - 1, out);
      }
    }

    lemma SweptIsPlanned(out: Job -> Attempt)
      requires Valid()
      ensures forall j :: j in SweptAll(out) ==> j in AllJobs()
    {
      hide JobsBelow, SweptBelow, AllPass, AnySet, FirstRead;
      SweptBelowIsPlanned(writeWidth, out);
    }

    // Every stage of group g passes: both read stages of each of its read groups, and
    // the writes on each shadow register that is not skipped.
    ghost predicate GroupPasses(g: nat, out: Job -> Attempt) {
      && (forall r: nat :: FirstRead(g) <= r < FirstRead(g + 1) ==>
            out(Vfifo(g, r)).pass && out(VfifoEnd(g, r)).pass)
      && (forall sr :: 0 <= sr < |skipShadowRegs| && !skipShadowRegs[sr] ==> out(Writes(g, sr)).pass)
    }

    lemma GroupPassesMeans(g: nat, out: Job -> Attempt)
      ensures AllPass(GroupJobs(g), out) <==> GroupPasses(g, out)
    {
      hide FirstRead, GroupJobs, AllPass;
      AllPassMeans(GroupJobs(g), out);
      forall job: Job
        ensures job in GroupJobs(g) <==>
                  match job
                  case Vfifo(h, r) => h == g && FirstRead(g) <= r < FirstRead(g + 1)
                  case Writes(h, sr) => h == g && sr < |skipShadowRegs| && !skipShadowRegs[sr]
                  case VfifoEnd(h, r) => h == g && FirstRead(g) <= r < FirstRead(g + 1)
                  case Lfifo => false
      {
        GroupJobsAre(g, job);
      }
      if AllPass(GroupJobs(g), out) {
        forall r: nat | FirstRead(g) <= r < FirstRead(g + 1)
          ensures out(Vfifo(g, r)).pass && out(VfifoEnd(g, r)).pass
        {
          assert Vfifo(g, r) in GroupJobs(g) && VfifoEnd(g, r) in GroupJobs(g);
        }
        forall sr | 0 <= sr < |skipShadowRegs| && !skipShadowRegs[sr]
          ensures out(Writes(g, sr)).pass
        {
          assert Writes(g, sr) in GroupJobs(g);
        }
      }
    }

    // The calibration verdict: every group that is not skipped passes, and so does the
    // read latency stage when nothing at all is skipped.
    lemma VerdictMeans(out: Job -> Attempt)
      requires Valid()
      ensures AllPass(AllJobs(), out)
              <==> (forall g :: 0 <= g < writeWidth && !Skipped(g) ==> GroupPasses(g, out))
                   && (AnySet(skipGroups) || out(Lfifo).pass)
    {
      hide GroupJobs, GroupPasses, Skipped, AnySet, FirstRead, JobsBelow, AllPass;
      GroupsPass(writeWidth, out);
      AllPassOfSum(JobsBelow(writeWidth), if AnySet(skipGroups) then [] else [Lfifo], out);
      OneJob(Lfifo, out);
      forall g: nat
        ensures AllPass(GroupJobs(g), out) <==> GroupPasses(g, out)
      {
        GroupPassesMeans(g, out);
      }
    }

    lemma OneJob(job: Job, out: Job -> Attempt)
      ensures AllPass([], out) && AllPass([job], out) == out(job).pass
    {
    }

    lemma {:induction false} GroupsPass(k: nat, out: Job -> Attempt)
      requires Valid()
      ensures AllPass(JobsBelow(k), out)
              <==> forall g :: 0 <= g < k && !Skipped(g) ==> AllPass(GroupJobs(g), out)
    {
      hide GroupJobs, Skipped, FirstRead, AllPass;
      OneJob(Lfifo, out);
      if k > 0 {
        GroupsPass(k - 1, out);
        AllPassOfSum(JobsBelow(k - 1), if Skipped(k - 1) then [] else GroupJobs(k - 1), out);
      }
    }
  }

  lemma {:induction false} UpToFailureIsPrefix(jobs: seq<Job>, out: Job -> Attempt)
    ensures UpToFailure(jobs, out) <= jobs
  {
    if jobs != [] {
      UpToFailureIsPrefix(jobs[1..], out);
      assert jobs == [jobs[0]] + jobs[1..];
    }
  }

  // A run that starts with the other, failing, run has the same first failure.
  lemma FirstOfExtension(a: seq<Job>, b: seq<Job>, out: Job -> Attempt)
    requires NamesStages(out) && a <= b && !AllPass(a, out)
    ensures First(b, out) == First(a, out) && !AllPass(b, out)
  {
    hide NamesStages, AllPass, First;
    var rest := b[|a|..];
    assert b == a + rest;
    FirstOfSum(a, rest, out);
    FailureIsReported(a, out);
    AllPassOfSum(a, rest, out);
  }

  lemma {:induction false} NothingReported(jobs: seq<Job>, out: Job -> Attempt)
    requires NamesStages(out)
    ensures First(jobs, out).stage == CAL_STAGE_NIL ==> First(jobs, out) == NO_FAILURE
  {
    hide NamesStages;
    if jobs != [] {
      ReportedNamesStages(jobs[0], out);
      NothingReported(jobs[1..], out);
    }
  }

  lemma FirstOfOne(job: Job, out: Job -> Attempt)
    ensures First([job], out) == FirstIn(Reported(job, out))
  {
  }

  function FirstIn(failures: seq<Failure>): Failure {
    if failures == [] then NO_FAILURE else failures[0]
  }

  // The shifts of run_groups give each group its own bits.
  ghost predicate Shifted(run: Bits, skip: Bits, off: nat) {
    |run| == |skip| && forall i :: 0 <= i < |run| ==> run[i] == (i + off < |skip| && !skip[i + off])
  }

  lemma ShiftMore(run: Bits, skip: Bits, off: nat, n: nat)
    requires n <= |run| && Shifted(run, skip, off)
    ensures Shifted(run[n..] + AllClear(n), skip, off + n)
  {
  }

  lemma BitsOut(run: Bits, skip: Bits, off: nat, n: nat)
    requires n <= |run| && Shifted(run, skip, off)
    ensures AnySet(run[..n]) <==> exists b :: off <= b < off + n && b < |skip| && !skip[b]
  {
    if AnySet(run[..n]) {
      var i :| 0 <= i < n && run[..n][i];
      assert !skip[i + off];
    }
    if b :| off <= b < off + n && b < |skip| && !skip[b] {
      assert run[..n][b - off];
    }
  }

  class Sequencer {
    const plan: Plan
    const out: Job -> Attempt
    // PHY_DEBUG_SWEEP_ALL_GROUPS is set
    const sweepAll: bool
    // The calibration steps read from the PHY manager say to skip them all.
    const skipAll: bool
    var errorStage: nat
    var errorSubstage: nat
    var errorGroup: nat
    // The stages run so far.
    ghost var log: seq<Job>

    constructor (plan: Plan, out: Job -> Attempt, sweepAll: bool, skipAll: bool)
      ensures this.plan == plan && this.out == out && this.sweepAll == sweepAll && this.skipAll == skipAll
    {
      this.plan, this.out, this.sweepAll, this.skipAll := plan, out, sweepAll, skipAll;
    }

    function Kept(): Failure
      reads this
    {
      Failure(errorStage, errorSubstage, errorGroup)
    }

    ghost predicate Valid()
      reads this
    {
      plan.Valid() && NamesStages(out) && Kept() == First(log, out)
    }

    // The stages a run of them does.
    ghost function Done(jobs: seq<Job>): seq<Job> {
      UpToFailure(jobs, out)
    }

    ghost function DoneInGroup(g: nat): seq<Job>
      requires plan.Valid()
    {
      if sweepAll then plan.SweptGroup(g, out) else UpToFailure(plan.GroupJobs(g), out)
    }

    method SetFailingGroupStage(f: Failure)
      modifies `errorStage, `errorSubstage, `errorGroup
      ensures Kept() == Keep(old(Kept()), f)
    {
      if errorStage == CAL_STAGE_NIL {
        errorSubstage := f.substage;
        errorStage := f.stage;
        errorGroup := f.group;
      }
    }

    // Run one stage: its algorithm reports what it reports, and the stage itself
    // reports when it fails.
    method RunStage(job: Job) returns (pass: bool)
      requires Valid()
      modifies this
      ensures Valid() && log == old(log) + [job] && pass == out(job).pass
    {
      hide NamesStages, Plan.Valid;
      NothingReported(log, out);
      ReportedNamesStages(job, out);
      FirstOfSum(log, [job], out);
      FirstOfOne(job, out);
      pass := out(job).pass;
      var failures := out(job).reported;
      for i := 0 to |failures|
        invariant log == old(log)
        invariant Kept() == Keep(old(Kept()), FirstIn(failures[..i]))
      {
        assert failures[i] == Reported(job, out)[i];
        assert i > 0 ==> failures[0] == Reported(job, out)[0];
        SetFailingGroupStage(failures[i]);
      }
      assert failures[..|failures|] == failures;
      if !pass {
        SetFailingGroupStage(StageFailure(job, out(job).substage));
      }
      log := log + [job];
    }

    // The reads of a group, before or after its writes.  leave says that
    // calibration is over.
    method ReadStages(g: nat, end: bool) returns (failed: bool, leave: bool)
      requires Valid()
      modifies this
      ensures Valid()
      ensures log == old(log) + Done(plan.Reads(g, end)) && failed == !AllPass(plan.Reads(g, end), out)
      ensures leave == (failed && !sweepAll)
    {
      hide Valid, Plan.FirstRead, AllPass, UpToFailure, Plan.ReadJobs;
      failed := false;
      var r: int, hi: int := plan.FirstRead(g), plan.FirstRead(g + 1);
      ghost var jobs := plan.ReadJobs(g, end, r, hi);
      NoJobs(out);
      while r < hi && !failed
        invariant Valid() && r >= 0 && (failed ==> sweepAll)
        invariant failed ==> log == old(log) + Done(jobs) && !AllPass(jobs, out)
        invariant !failed ==> log + Done(plan.ReadJobs(g, end, r, hi)) == old(log) + Done(jobs)
        invariant !failed ==> AllPass(plan.ReadJobs(g, end, r, hi), out) == AllPass(jobs, out)
        decreases hi - r
      {
        var job := if end then VfifoEnd(g, r) else Vfifo(g, r);
        plan.ReadStep(g, end, r, hi);
        JobFirst(job, plan.ReadJobs(g, end, r + 1, hi), out);
        Moves(log, job, Done(plan.ReadJobs(g, end, r + 1, hi)));
        var pass := RunStage(job);
        if !pass {
          failed := true;
          if !sweepAll {
            return true, true;
          }
        }
        r := r + 1;
      }
      plan.ReadStep(g, end, r, hi);
      return failed, false;
    }

    // The writes of a group.
    method WriteStages(g: nat) returns (failed: bool, leave: bool)
      requires Valid()
      modifies this
      ensures Valid()
      ensures var jobs := plan.WriteJobs(g, 0);
              && log == old(log) + (if sweepAll then jobs else Done(jobs))
              && failed == !AllPass(jobs, out)
      ensures leave == (failed && !sweepAll)
    {
      hide Valid, AllPass, UpToFailure, Plan.WriteJobs;
      failed := false;
      ghost var jobs := plan.WriteJobs(g, 0);
      NoJobs(out);
      var sr := 0;
      while sr < |plan.skipShadowRegs|
        invariant Valid() && 0 <= sr <= |plan.skipShadowRegs|
        invariant sweepAll ==> log + plan.WriteJobs(g, sr) == old(log) + jobs
        invariant !sweepAll ==> !failed && log + Done(plan.WriteJobs(g, sr)) == old(log) + Done(jobs)
        invariant AllPass(jobs, out) == (!failed && AllPass(plan.WriteJobs(g, sr), out))
      {
        plan.WriteStep(g, sr);
        var srFailed := false;
        if !plan.skipShadowRegs[sr] {
          JobFirst(Writes(g, sr), plan.WriteJobs(g, sr + 1), out);
          Moves(log, Writes(g, sr), plan.WriteJobs(g, sr + 1));
          Moves(log, Writes(g, sr), Done(plan.WriteJobs(g, sr + 1)));
          var pass := RunStage(Writes(g, sr));
          if !pass {
            srFailed := true;
            if !sweepAll {
              return true, true;
            }
          }
        }
        if srFailed {
          failed := true;
        }
        sr := sr + 1;
      }
      plan.WriteStep(g, sr);
      leave := false;
    }

    // All stages of one group.
    method CalibrateGroup(g: nat) returns (failed: bool, leave: bool)
      requires Valid()
      modifies this
      ensures Valid()
      ensures log == old(log) + DoneInGroup(g)
      ensures failed == !AllPass(plan.GroupJobs(g), out) && leave == (failed && !sweepAll)
    {
      hide NamesStages, AllPass, UpToFailure, Plan.GroupJobs, Plan.WriteJobs, Plan.Reads, Plan.FirstRead;
      plan.GroupSplits(g, out);
      UpToFailureOfPassing(plan.Reads(g, false), out);
      UpToFailureOfPassing(plan.WriteJobs(g, 0), out);
      failed, leave := ReadStages(g, false);
      if failed {
        return;
      }
      failed, leave := WriteStages(g);
      if failed {
        Regroup(old(log), plan.Reads(g, false),
                if sweepAll then plan.WriteJobs(g, 0) else Done(plan.WriteJobs(g, 0)), []);
        return;
      }
      failed, leave := ReadStages(g, true);
      Regroup(old(log), plan.Reads(g, false), plan.WriteJobs(g, 0), Done(plan.Reads(g, true)));
    }

    static lemma Moves(a: seq<Job>, job: Job, b: seq<Job>)
      ensures a + ([job] + b) == a + [job] + b
    {
    }

    static lemma Regroup(a: seq<Job>, b: seq<Job>, c: seq<Job>, d: seq<Job>)
      ensures a + b + c + d == a + (b + c + d)
    {
    }

    // What there is to see after the first k groups.
    ghost predicate GroupsDone(k: nat)
      requires plan.Valid()
      reads this
    {
      if sweepAll then log == plan.SweptBelow(k, out)
      else log == plan.JobsBelow(k) && AllPass(plan.JobsBelow(k), out)
    }

    // mem_calibrate.  The verdict and the failure kept do not depend on whether all
    // groups are swept; a failed calibration has kept a failure; nothing is run for
    // skipped groups.
    method MemCalibrate() returns (ok: bool)
      requires plan.Valid() && NamesStages(out)
      modifies this
      ensures Valid()
      ensures ok == (skipAll || AllPass(plan.AllJobs(), out))
      ensures !skipAll ==> Kept() == First(Done(plan.AllJobs()), out)
      ensures !ok ==> errorStage != CAL_STAGE_NIL
      ensures !skipAll ==> log == if sweepAll then plan.SweptAll(out) else Done(plan.AllJobs())
      ensures forall job :: job in log ==> plan.Takes(job)
    {
      hide NamesStages, AllPass, UpToFailure, First, Plan.AllJobs, Plan.SweptAll, Plan.Takes, Plan.FirstRead;
      errorSubstage, errorStage, errorGroup, log := CAL_SUBSTAGE_NIL, CAL_STAGE_NIL, 0xff, [];
      NothingDone(out);
      if skipAll {
        return true;
      }
      ok := RunGroups();
      plan.SweepReportsTheSame(out);
      plan.SweptIsPlanned(out);
      UpToFailureOfPassing(plan.AllJobs(), out);
      forall job | job in log
        ensures plan.Takes(job)
      {
        plan.PlannedIsTaken(job);
      }
    }

    // The groups in turn, then the read latency.
    method RunGroups() returns (ok: bool)
      requires Valid() && log == []
      modifies this
      ensures Valid()
      ensures log == if sweepAll then plan.SweptAll(out) else Done(plan.AllJobs())
      ensures ok == AllPass(plan.AllJobs(), out)
    {
      hide NamesStages, AllPass, UpToFailure, AnySet, Shifted;
      hide Plan.FirstRead, Plan.GroupJobs, Plan.SweptGroup, Plan.Skipped;
      NoJobs(out);
      var runGroups := Not(plan.skipGroups);
      FirstShift(plan.skipGroups);
      plan.NextFirst(0);
      var failingGroups, g := 0, 0;
      while g < plan.writeWidth
        invariant Valid() && 0 <= g <= plan.writeWidth
        invariant Shifted(runGroups, plan.skipGroups, plan.FirstRead(g))
        invariant GroupsDone(g) && failingGroups >= 0
        invariant failingGroups == 0 <==> AllPass(plan.JobsBelow(g), out)
      {
        plan.StepBelow(g, out);
        plan.NextShift(runGroups, g);
        var currentRun := runGroups[..plan.perGroup];
        runGroups := runGroups[plan.perGroup..] + AllClear(plan.perGroup);
        if !AnySet(currentRun) {
          g := g + 1;
          continue;
        }
        var failed, leave := CalibrateGroup(g);
        UpToFailureOfPassing(plan.GroupJobs(g), out);
        if leave {
          plan.StopsHere(g + 1, out);
          return false;
        }
        if failed {
          failingGroups := failingGroups + 1;
        }
        g := g + 1;
      }
      if failingGroups != 0 {
        plan.FailsBelow(out);
        return false;
      }
      plan.LastStage(out);
      if !AnySet(plan.skipGroups) {
        ok := RunStage(Lfifo);
        return;
      }
      ok := true;
    }
  }

  lemma NothingDone(out: Job -> Attempt)
    ensures First([], out) == NO_FAILURE
  {
  }

  lemma NoJobs(out: Job -> Attempt)
    ensures AllPass([], out) && UpToFailure([], out) == []
  {
  }

  lemma JobFirst(job: Job, rest: seq<Job>, out: Job -> Attempt)
    ensures UpToFailure([job] + rest, out) == if out(job).pass then [job] + UpToFailure(rest, out) else [job]
    ensures AllPass([job] + rest, out) == (out(job).pass && AllPass(rest, out))
  {
    assert ([job] + rest)[1..] == rest;
  }

  lemma FirstShift(skip: Bits)
    ensures Shifted(Not(skip), skip, 0)
  {
  }
}
