// The debug command mailbox: firmware and a host share a command word and a
// status word, and either side may run between any two accesses of the other.

module Mailbox {

  // requested_command
  datatype Command = WaitCmd | ResponseAck | Cmd(id: nat)

  // command_status
  datatype Status = CmdExe | CmdReady | ResponseReady | IllegalCmd

  // Where the firmware is: polling the status, about to look at the command,
  // carrying one out, or between the two writes that mark the interface ready.
  datatype Firmware = Poll | SeenResponse | SeenReady | Running(c: Command) | MarkFirst | MarkSecond | Left

  // Where the host is: it posts a command only after it has seen the interface
  // ready, and acknowledges only after it has seen a response.
  datatype Host = Idle | SawReady | Waiting | SawResponse

  // The order of the two writes of tclrpt_mark_interface_as_ready.
  datatype Order = CommandFirst | StatusFirst

  datatype State = State(
    command: Command, status: Status, fw: Firmware, host: Host,
    posted: seq<nat>, handled: seq<nat>)

  // A step is one access by the firmware, or one by the host, which posts id if
  // that is what it does next.
  datatype Step = FirmwareStep | HostStep(id: nat)

  // TCLDBG_SET_UPDATE_PARAMETERS, after which the firmware leaves its loop.
  const UPDATE_PARAMETERS: nat := 1

  // Before tclrpt_loop marks the interface ready for the first time.
  function Init(nop: nat): State {
    State(Cmd(nop), CmdExe, MarkFirst, Idle, [], [])
  }

  predicate Responding(s: Status) {
    s == ResponseReady || s == IllegalCmd
  }

  // One access of tclrpt_loop.  legal says which commands it knows.
  function FirmwareNext(order: Order, legal: nat -> bool, s: State): State {
    match s.fw
    case Poll =>
      s.(fw := if Responding(s.status) then SeenResponse
               else if s.status == CmdReady then SeenReady else Poll)
    case SeenResponse => s.(fw := if s.command == ResponseAck then MarkFirst else Poll)
    case SeenReady => s.(fw := if s.command == WaitCmd then Poll else Running(s.command))
    case Running(c) =>
      var ok := c.Cmd? && legal(c.id);
      s.(status := if ok then ResponseReady else IllegalCmd,
         handled := if c.Cmd? then s.handled + [c.id] else s.handled,
         fw := if ok && c.id == UPDATE_PARAMETERS then Left else Poll)
    case MarkFirst =>
      if order == CommandFirst then s.(command := WaitCmd, fw := MarkSecond)
      else s.(status := CmdReady, fw := MarkSecond)
    case MarkSecond =>
      if order == CommandFirst then s.(status := CmdReady, fw := Poll)
      else s.(command := WaitCmd, fw := Poll)
    case Left => s
  }

  // One access of the host.
  function HostNext(s: State, id: nat): State {
    match s.host
    case Idle => s.(host := if s.status == CmdReady then SawReady else Idle)
    case SawReady => s.(command := Cmd(id), posted := s.posted + [id], host := Waiting)
    case Waiting => s.(host := if Responding(s.status) then SawResponse else Waiting)
    case SawResponse => s.(command := ResponseAck, host := Idle)
  }

  function Next(order: Order, legal: nat -> bool, s: State, step: Step): State {
    match step
    case FirmwareStep => FirmwareNext(order, legal, s)
    case HostStep(id) => HostNext(s, id)
  }

  function Run(order: Order, legal: nat -> bool, s: State, steps: seq<Step>): State
    decreases steps
  {
    if steps == [] then s else Run(order, legal, Next(order, legal, s, steps[0]), steps[1..])
  }

  // A command has been posted and not been carried out.
  predicate Pending(s: State) {
    s.posted != s.handled
  }

  // Commands are carried out in the order they were posted, each once, with at
  // most one outstanding, and an outstanding command is still in the command word.
  predicate Safe(s: State) {
    || s.handled == s.posted
    || (&& s.posted != [] && s.handled == s.posted[..|s.posted| - 1]
        && s.command == Cmd(s.posted[|s.posted| - 1]))
  }

  // Who may be where when the command word is written first.
  predicate Inv(s: State) {
    match s.status
    case CmdExe =>
      s.host == Idle && s.posted == s.handled
      && (s.fw == MarkFirst || (s.fw == MarkSecond && s.command == WaitCmd))
    case CmdReady =>
      if s.host == Waiting then
        && s.posted != [] && s.handled == s.posted[..|s.posted| - 1]
        && s.command == Cmd(s.posted[|s.posted| - 1])
        && (s.fw == Poll || s.fw == SeenReady || s.fw == Running(s.command))
      else
        && (s.host == Idle || s.host == SawReady) && s.posted == s.handled && s.command == WaitCmd
        && (s.fw == Poll || s.fw == SeenReady)
    case _ =>
      && s.posted == s.handled
      && if s.host == Idle then
           || (s.command == ResponseAck
               && (s.fw == Poll || s.fw == SeenResponse || s.fw == MarkFirst || s.fw == Left))
           || (s.command == WaitCmd && s.fw == MarkSecond)
         else
           && s.host != SawReady && s.command.Cmd?
           && (s.fw == Poll || s.fw == SeenResponse || s.fw == Left)
  }

  lemma NextInv(legal: nat -> bool, s: State, step: Step)
    requires Inv(s)
    ensures Inv(Next(CommandFirst, legal, s, step))
  {
    if s.fw.Running? {
      assert s.posted == s.posted[..|s.posted| - 1] + [s.posted[|s.posted| - 1]];
    }
    if s.host == SawReady {
      forall id: nat
        ensures (s.posted + [id])[..|s.posted|] == s.posted
      {
      }
    }
  }

  lemma {:induction false} RunInv(legal: nat -> bool, s: State, steps: seq<Step>)
    requires Inv(s)
    ensures Inv(Run(CommandFirst, legal, s, steps))
    decreases steps
  {
    if steps != [] {
      NextInv(legal, s, steps[0]);
      RunInv(legal, Next(CommandFirst, legal, s, steps[0]), steps[1..]);
    }
  }

  // The mailbox is safe in every interleaving exactly when the command word is
  // written before the status word.
  lemma SafeIffCommandFirst(order: Order, nop: nat)
    ensures (forall legal: nat -> bool, steps: seq<Step> :: Safe(Run(order, legal, Init(nop), steps)))
            <==> order == CommandFirst
  {
    if order == CommandFirst {
      forall legal: nat -> bool, steps: seq<Step>
        ensures Safe(Run(order, legal, Init(nop), steps))
      {
        RunInv(legal, Init(nop), steps);
      }
    } else {
      LostCommand(x => true, nop);
    }
  }

  // With the status word first, the host can post between the two writes, and the
  // reset of the command word wipes out what it posted.
  lemma LostCommand(legal: nat -> bool, nop: nat)
    ensures var s := Run(StatusFirst, legal, Init(nop), [FirmwareStep, HostStep(7), HostStep(7), FirmwareStep]);
            s.posted == [7] && s.handled == [] && s.command == WaitCmd && s.status == CmdReady
  {
    var s0 := Init(nop);
    var s1 := Next(StatusFirst, legal, s0, FirmwareStep);
    var s2 := Next(StatusFirst, legal, s1, HostStep(7));
    var s3 := Next(StatusFirst, legal, s2, HostStep(7));
    RunCons(StatusFirst, legal, s0, FirmwareStep, [HostStep(7), HostStep(7), FirmwareStep]);
    RunCons(StatusFirst, legal, s1, HostStep(7), [HostStep(7), FirmwareStep]);
    RunCons(StatusFirst, legal, s2, HostStep(7), [FirmwareStep]);
    RunCons(StatusFirst, legal, s3, FirmwareStep, []);
  }

  lemma RunCons(order: Order, legal: nat -> bool, s: State, step: Step, rest: seq<Step>)
    ensures Run(order, legal, s, [step] + rest) == Run(order, legal, Next(order, legal, s, step), rest)
  {
    assert ([step] + rest)[1..] == rest;
  }

  // How many firmware steps an outstanding command is away from being handled.
  function Rank(s: State): nat {
    match s.fw
    case Poll => 3
    case SeenReady => 2
    case Running(_) => 1
    case _ => 0
  }

  function FirmwareSteps(steps: seq<Step>): nat {
    if steps == [] then 0 else (if steps[0].FirmwareStep? then 1 else 0) + FirmwareSteps(steps[1..])
  }

  // An outstanding command is carried out by the third firmware step at the
  // latest, whatever the host does meanwhile.
  lemma {:induction false} PendingIsHandled(legal: nat -> bool, s: State, steps: seq<Step>)
    requires Inv(s) && Pending(s) && FirmwareSteps(steps) >= Rank(s)
    ensures |Run(CommandFirst, legal, s, steps).handled| >= |s.posted| && Rank(s) <= 3
    decreases steps
  {
    var s' := Next(CommandFirst, legal, s, steps[0]);
    NextInv(legal, s, steps[0]);
    if Pending(s') {
      PendingIsHandled(legal, s', steps[1..]);
    } else {
      HandledGrows(CommandFirst, legal, s', steps[1..]);
    }
  }

  lemma {:induction false} HandledGrows(order: Order, legal: nat -> bool, s: State, steps: seq<Step>)
    ensures |Run(order, legal, s, steps).handled| >= |s.handled|
    decreases steps
  {
    if steps != [] {
      HandledGrows(order, legal, Next(order, legal, s, steps[0]), steps[1..]);
    }
  }

  // A command is carried out in one step, which answers it; the firmware leaves its
  // loop after a legal update of parameters and then only.
  lemma HandlingAnswers(legal: nat -> bool, s: State)
    requires Inv(s) && s.fw.Running?
    ensures s.fw.c.Cmd?
    ensures var id, r := s.fw.c.id, FirmwareNext(CommandFirst, legal, s);
            && r.handled == s.handled + [id] && r.handled == s.posted
            && r.status == (if legal(id) then ResponseReady else IllegalCmd)
            && (r.fw == Left <==> legal(id) && id == UPDATE_PARAMETERS)
  {
    assert s.posted == s.posted[..|s.posted| - 1] + [s.posted[|s.posted| - 1]];
  }

  // An outstanding command is answered by the third firmware step at the latest,
  // whatever the host does meanwhile.
  lemma {:induction false} PendingIsAnswered(legal: nat -> bool, s: State, steps: seq<Step>) returns (n: nat)
    requires Inv(s) && Pending(s) && FirmwareSteps(steps) >= Rank(s)
    ensures n <= |steps| && s.posted != []
    ensures var r := Run(CommandFirst, legal, s, steps[..n]);
            && r.handled == r.posted == s.posted
            && r.status == if legal(s.posted[|s.posted| - 1]) then ResponseReady else IllegalCmd
    decreases steps
  {
    var s' := Next(CommandFirst, legal, s, steps[0]);
    NextInv(legal, s, steps[0]);
    if Pending(s') {
      n := PendingIsAnswered(legal, s', steps[1..]);
      RunCons(CommandFirst, legal, s, steps[0], steps[1..][..n]);
      assert [steps[0]] + steps[1..][..n] == steps[..n + 1];
      n := n + 1;
    } else {
      HandlingAnswers(legal, s);
      n := 1;
      assert steps[..1] == [steps[0]] + [];
      RunCons(CommandFirst, legal, s, steps[0], []);
    }
  }

  // The answer stays until the host has acknowledged it.
  lemma AnswerStays(legal: nat -> bool, s: State, step: Step)
    requires Inv(s) && Responding(s.status) && s.command.Cmd?
    ensures Next(CommandFirst, legal, s, step).status == s.status
  {
  }

  // The response has been acknowledged, or the loop just entered, and the firmware is
  // on its way to accepting the next command.
  predicate Reopening(s: State) {
    || (Responding(s.status) && s.command == ResponseAck && (s.fw == Poll || s.fw == SeenResponse || s.fw == MarkFirst))
    || (s.status == CmdExe && s.fw == MarkFirst)
    || (s.status != CmdReady && s.command == WaitCmd && s.fw == MarkSecond)
  }

  // How many firmware steps that takes.
  function StepsToReady(s: State): nat {
    match s.fw
    case Poll => 4
    case SeenResponse => 3
    case MarkFirst => 2
    case _ => 1
  }

  // By the fourth firmware step at the latest the interface is ready for the next
  // command, whatever the host does meanwhile.
  lemma {:induction false} AcknowledgedBecomesReady(legal: nat -> bool, s: State, steps: seq<Step>) returns (n: nat)
    requires Inv(s) && Reopening(s) && FirmwareSteps(steps) >= StepsToReady(s)
    ensures n <= |steps| && StepsToReady(s) <= 4
    ensures var r := Run(CommandFirst, legal, s, steps[..n]);
            r.status == CmdReady && r.command == WaitCmd && r.posted == s.posted && r.handled == s.handled
    decreases steps
  {
    var s' := Next(CommandFirst, legal, s, steps[0]);
    NextInv(legal, s, steps[0]);
    if Reopening(s') {
      n := AcknowledgedBecomesReady(legal, s', steps[1..]);
      RunCons(CommandFirst, legal, s, steps[0], steps[1..][..n]);
      assert [steps[0]] + steps[1..][..n] == steps[..n + 1];
      n := n + 1;
    } else {
      n := 1;
      assert steps[..1] == [steps[0]] + [];
      RunCons(CommandFirst, legal, s, steps[0], []);
    }
  }
}
