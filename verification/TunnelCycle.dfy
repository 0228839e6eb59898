/** One connection cycle of the tunnel as interleaved steps of its supervisor, its
    context watcher and its two pumps (api/tunnel.go). */
module TunnelCycle {

  const CAPACITY := 2

  /** The supervisor: waiting for an error, then tearing the cycle down. */
  datatype Supervisor = Waiting | Received | StoppedPumps | ClosedConn | Signalled | Joined(graceful: bool)

  /** The watcher of the parent context; `sent` says whether its error found room. */
  datatype Watcher = Watching | Woken | WatcherStopped | WatcherClosed | Reported(sent: bool) | WatcherGone(sent: bool)

  /** The pump from the device to the connection. It holds readMu while in the device. */
  datatype OutPump =
    | Checking | Locking | InDevice | ReadFailed | GotPacket | Writing | WriteFailed(fatal: bool)
    | OutSending | OutGone(sent: bool)

  /** The pump from the connection to the device. */
  datatype InPump = InConn | ConnFailed(fatal: bool) | DeviceFailed | InSending | InGone(sent: bool)

  /** A cycle: the contexts, the connection, the errors in errChan, the number of times the
      shutdown channel was closed, and the packets that have arrived and can be read even
      after the connection is closed. */
  datatype Cycle = Cycle(ctxDone: bool, pumpsStopped: bool, connClosed: bool, chan: nat, shutdownCloses: nat,
      backlog: nat,
                         supervisor: Supervisor, watcher: Watcher, outPump: OutPump, inPump: InPump)
  {
    /** pumpCtx.Err() != nil */
    predicate Cancelled() { pumpsStopped || ctxDone }

    predicate Room() { chan < CAPACITY }
  }

  function NewCycle(ctxDone: bool): Cycle {
    Cycle(ctxDone, false, false, 0, 0, 0, Waiting, Watching, Checking, InConn)
  }

  // ----- Steps

  datatype OutStep =
    | Check | Lock | DeviceReturns(ok: bool) | ReactToRead | Recheck | Written
    | WriteFails(isFatal: bool) | ReactToWrite | OutSend

  datatype InStep = Deliver | ConnFails(isFatal: bool) | DeviceFails | ReactToConn | ReactToDevice | InSend

  datatype Step =
    | CancelContext
    | Arrive
    // supervisor
    | Receive | StopPumps | CloseConn | SignalShutdown | JoinDone | JoinTimeout
    // watcher
    | Wake | WatcherStops | WatcherCloses | Report | WatcherExits
    | Out(o: OutStep)
    | In(i: InStep)

  predicate OutEnabled(p: OutPump, a: OutStep, room: bool) {
    match a
    case Check => p == Checking
    case Lock => p == Locking
    case DeviceReturns(_) => p == InDevice
    case ReactToRead => p == ReadFailed
    case Recheck => p == GotPacket
    case Written => p == Writing
    case WriteFails(_) => p == Writing
    case ReactToWrite => p.WriteFailed?
    case OutSend => p == OutSending && room
  }

  function OutMoved(p: OutPump, a: OutStep, cancelled: bool): OutPump {
    match a
    case Check => if cancelled then OutGone(false) else Locking
    case Lock => InDevice
    case DeviceReturns(ok) => if ok then GotPacket else ReadFailed
    case ReactToRead => if cancelled then OutGone(false) else OutSending
    case Recheck => if cancelled then OutGone(false) else Writing
    case Written => Checking
    case WriteFails(isFatal) => WriteFailed(isFatal)
    case ReactToWrite => if cancelled then OutGone(false) else if p.WriteFailed? && p.fatal then OutSending
        else Checking
    case OutSend => OutGone(true)
  }

  predicate InEnabled(p: InPump, a: InStep, backlog: nat, room: bool) {
    match a
    case Deliver => p == InConn && backlog > 0
    case ConnFails(_) => p == InConn
    case DeviceFails => p == InConn && backlog > 0
    case ReactToConn => p.ConnFailed?
    case ReactToDevice => p == DeviceFailed
    case InSend => p == InSending && room
  }

  function InMoved(p: InPump, a: InStep, cancelled: bool): InPump {
    match a
    case Deliver => InConn
    case ConnFails(isFatal) => ConnFailed(isFatal)
    case DeviceFails => DeviceFailed
    case ReactToConn => if cancelled then InGone(false) else if p.ConnFailed? && p.fatal then InSending else InConn
    case ReactToDevice => if cancelled then InGone(false) else InSending
    case InSend => InGone(true)
  }

  predicate Enabled(s: Cycle, a: Step) {
    match a
    case CancelContext => !s.ctxDone
    case Arrive => !s.connClosed
    case Receive => s.supervisor == Waiting && s.chan > 0
    case StopPumps => s.supervisor == Received
    case CloseConn => s.supervisor == StoppedPumps
    case SignalShutdown => s.supervisor == ClosedConn
    case JoinDone => s.supervisor == Signalled && s.outPump.OutGone? && s.inPump.InGone?
    case JoinTimeout => s.supervisor == Signalled
    case Wake => s.watcher == Watching && s.ctxDone
    case WatcherStops => s.watcher == Woken
    case WatcherCloses => s.watcher == WatcherStopped
    case Report => s.watcher == WatcherClosed
    case WatcherExits => s.shutdownCloses > 0 && (s.watcher == Watching || s.watcher.Reported?)
    case Out(o) => OutEnabled(s.outPump, o, s.Room())
    case In(i) => InEnabled(s.inPump, i, s.backlog, s.Room())
  }

  function Next(s: Cycle, a: Step): Cycle
    requires Enabled(s, a)
  {
    match a
    case CancelContext => s.(ctxDone := true)
    case Arrive => s.(backlog := s.backlog + 1)
    case Receive => s.(supervisor := Received, chan := s.chan - 1)
    case StopPumps => s.(supervisor := StoppedPumps, pumpsStopped := true)
    case CloseConn => s.(supervisor := ClosedConn, connClosed := true)
    case SignalShutdown => s.(supervisor := Signalled, shutdownCloses := s.shutdownCloses + 1)
    case JoinDone => s.(supervisor := Joined(true))
    case JoinTimeout => s.(supervisor := Joined(false))
    case Wake => s.(watcher := Woken)
    case WatcherStops => s.(watcher := WatcherStopped, pumpsStopped := true)
    case WatcherCloses => s.(watcher := WatcherClosed, connClosed := true)
    case Report => if s.Room() then s.(watcher := Reported(true), chan := s.chan + 1)
        else s.(watcher := Reported(false))
    case WatcherExits => s.(watcher := WatcherGone(s.watcher == Reported(true)))
    case Out(o) => s.(outPump := OutMoved(s.outPump, o, s.Cancelled()), chan := s.chan + if o == OutSend then 1 else 0)
    case In(i) => s.(inPump := InMoved(s.inPump, i, s.Cancelled()), chan := s.chan + (if i == InSend then 1 else 0),
                     backlog := s.backlog - if i == Deliver || i == DeviceFails then 1 else 0)
  }

  ghost predicate IsRun(states: seq<Cycle>, steps: seq<Step>) {
    && |states| == |steps| + 1
    && forall k :: 0 <= k < |steps| ==> Enabled(states[k], steps[k]) && states[k + 1] == Next(states[k], steps[k])
  }

  // ----- The invariant

  function Sends(s: Cycle): nat {
    (if s.outPump == OutGone(true) then 1 else 0)
    + (if s.inPump == InGone(true) then 1 else 0)
    + (if s.watcher == Reported(true) || s.watcher == WatcherGone(true) then 1 else 0)
  }

  /** Every goroutine sends at most one error and the supervisor takes one, so the channel
      holds exactly the errors sent and not taken. */
  ghost predicate ChannelInv(s: Cycle) {
    && s.chan + (if s.supervisor == Waiting then 0 else 1) == Sends(s)
    && s.chan <= CAPACITY
    && (s.watcher == Reported(false) ==> s.outPump == OutGone(true) && s.inPump == InGone(true))
  }

  /** The shutdown channel is closed by the supervisor alone, in one step of the teardown;
      goroutines leave without an error only when the cycle is being torn down; and supervisor
      and watcher stop the pumps and close the connection before they report. */
  ghost predicate TeardownInv(s: Cycle) {
    && s.shutdownCloses == (if s.supervisor == Signalled || s.supervisor.Joined? then 1 else 0)
    && (s.supervisor != Waiting && s.supervisor != Received ==> s.pumpsStopped)
    && (s.supervisor == ClosedConn || s.supervisor == Signalled || s.supervisor.Joined? ==> s.connClosed)
    && (s.supervisor == Waiting || s.supervisor == Received ==> s.pumpsStopped ==> s.ctxDone)
    && (s.watcher != Watching && !s.watcher.WatcherGone? ==> s.ctxDone)
    && (s.watcher.WatcherGone? ==> s.shutdownCloses == 1)
    && (s.outPump == OutGone(false) || s.inPump == InGone(false) ==> s.Cancelled())
    && (s.supervisor == Joined(true) ==> s.outPump.OutGone? && s.inPump.InGone?)
    && (s.watcher == WatcherStopped || s.watcher == WatcherClosed || s.watcher.Reported? ==> s.pumpsStopped)
    && (s.watcher == WatcherClosed || s.watcher.Reported? ==> s.connClosed)
  }

  ghost predicate Inv(s: Cycle) { ChannelInv(s) && TeardownInv(s) }

  lemma OutKeepsChannel(s: Cycle, o: OutStep)
    requires Inv(s) && Enabled(s, Out(o))
    ensures ChannelInv(Next(s, Out(o)))
  {
  }

  lemma InKeepsChannel(s: Cycle, i: InStep)
    requires Inv(s) && Enabled(s, In(i))
    ensures ChannelInv(Next(s, In(i)))
  {
  }

  lemma OthersKeepChannel(s: Cycle, a: Step)
    requires Inv(s) && Enabled(s, a) && !a.Out? && !a.In?
    ensures ChannelInv(Next(s, a))
  {
    hide OutEnabled, OutMoved, InEnabled, InMoved;
  }

  lemma StepKeepsChannel(s: Cycle, a: Step)
    requires Inv(s) && Enabled(s, a)
    ensures ChannelInv(Next(s, a))
  {
    hide Enabled, Next, Inv, ChannelInv;
    match a
    case Out(o) => OutKeepsChannel(s, o);
    case In(i) => InKeepsChannel(s, i);
    case _ => OthersKeepChannel(s, a);
  }

  lemma StepKeepsTeardown(s: Cycle, a: Step)
    requires Inv(s) && Enabled(s, a)
    ensures TeardownInv(Next(s, a))
  {
  }

  lemma {:induction false} RunsKeepInv(states: seq<Cycle>, steps: seq<Step>, k: nat, ctxDone: bool)
    requires IsRun(states, steps) && states[0] == NewCycle(ctxDone) && k < |states|
    ensures Inv(states[k])
  {
    hide Enabled, Next;
    if k > 0 {
      RunsKeepInv(states, steps, k - 1, ctxDone);
      StepKeepsChannel(states[k - 1], steps[k - 1]);
      StepKeepsTeardown(states[k - 1], steps[k - 1]);
    }
  }

  // ----- What follows

  /** A send of a pump can block only while an error is there for the supervisor to receive;
      once the supervisor has received one, no send of a pump can block any more. */
  lemma NoSendBlocksAfterReceive(states: seq<Cycle>, steps: seq<Step>, k: nat, ctxDone: bool)
    requires IsRun(states, steps) && states[0] == NewCycle(ctxDone) && k < |states|
    ensures states[k].outPump == OutSending ==> Enabled(states[k], Out(OutSend)) || Enabled(states[k], Receive)
    ensures states[k].inPump == InSending ==> Enabled(states[k], In(InSend)) || Enabled(states[k], Receive)
    ensures states[k].supervisor != Waiting ==> !Enabled(states[k], Receive)
  {
    RunsKeepInv(states, steps, k, ctxDone);
  }

  function Count(steps: seq<Step>, a: Step): (n: nat) {
    if steps == [] then 0 else Count(steps[..|steps| - 1], a) + if steps[|steps| - 1] == a then 1 else 0
  }

  lemma {:induction false} ClosesAreCounted(states: seq<Cycle>, steps: seq<Step>, ctxDone: bool)
    requires IsRun(states, steps) && states[0] == NewCycle(ctxDone)
    ensures states[|steps|].shutdownCloses == Count(steps, SignalShutdown)
    decreases |steps|
  {
    hide Enabled, Next;
    var n := |steps|;
    if n > 0 {
      ClosesAreCounted(states[..n], steps[..n - 1], ctxDone);
      assert states[n] == Next(states[n - 1], steps[n - 1]);
      OneClose(states[n - 1], steps[n - 1]);
    }
  }

  lemma OneClose(s: Cycle, a: Step)
    requires Enabled(s, a)
    ensures Next(s, a).shutdownCloses == s.shutdownCloses + if a == SignalShutdown then 1 else 0
  {
    hide OutMoved, OutEnabled, InMoved, InEnabled;
  }

  /** The shutdown channel is closed at most once in a cycle, and exactly once in a cycle
      that is over. */
  lemma ShutdownClosedOnce(states: seq<Cycle>, steps: seq<Step>, ctxDone: bool)
    requires IsRun(states, steps) && states[0] == NewCycle(ctxDone)
    ensures Count(steps, SignalShutdown) <= 1
    ensures states[|steps|].supervisor.Joined? ==> Count(steps, SignalShutdown) == 1
  {
    hide Enabled, Next, Count;
    ClosesAreCounted(states, steps, ctxDone);
    RunsKeepInv(states, steps, |steps|, ctxDone);
  }

  // ----- No lost wake-up

  /** The supervisor sleeps on an empty channel although it should be told something: the
      context is cancelled, or a pump has failed or is gone. */
  predicate Unheard(s: Cycle) {
    && s.supervisor == Waiting && s.chan == 0
    && (  s.ctxDone
       || s.outPump == ReadFailed || s.outPump == WriteFailed(true) || s.outPump == OutSending || s.outPump.OutGone?
       || s.inPump == ConnFailed(true) || s.inPump == DeviceFailed || s.inPump == InSending || s.inPump.InGone?)
  }

  /** The step that brings the error closer to the channel. */
  function Helper(s: Cycle): Step {
    if s.ctxDone then
      if s.watcher == Watching then Wake
      else if s.watcher == Woken then WatcherStops
      else if s.watcher == WatcherStopped then WatcherCloses
      else Report
    else if s.outPump == OutSending then Out(OutSend)
    else if s.inPump == InSending then In(InSend)
    else if s.outPump == ReadFailed then Out(ReactToRead)
    else if s.outPump.WriteFailed? && s.outPump.fatal then Out(ReactToWrite)
    else if s.inPump == DeviceFailed then In(ReactToDevice)
    else In(ReactToConn)
  }

  /** How many helping steps are left at most. */
  function Distance(s: Cycle): nat {
    if s.ctxDone then
      if s.watcher == Watching then 4
      else if s.watcher == Woken then 3
      else if s.watcher == WatcherStopped then 2
      else 1
    else if s.outPump == OutSending || s.inPump == InSending then 5
    else 6
  }

  /** The helping step is always possible, and it wakes the supervisor or shortens the way. */
  lemma HelperHelps(s: Cycle)
    requires Inv(s) && Unheard(s)
    ensures Enabled(s, Helper(s))
    ensures var s' := Next(s, Helper(s));
            s'.supervisor == Waiting && (s'.chan > 0 || (Unheard(s') && Distance(s') < Distance(s)))
  {
  }

  /** No other step lengthens the way or takes the trouble back. */
  lemma NobodyHinders(s: Cycle, a: Step)
    requires Inv(s) && Unheard(s) && Enabled(s, a)
    ensures var s' := Next(s, a);
            s'.supervisor == Waiting && (s'.chan > 0 || (Unheard(s') && Distance(s') <= Distance(s)))
  {
  }

  /** How many steps of a run were the helping step of their state. */
  function HelpingSteps(states: seq<Cycle>, steps: seq<Step>): (n: nat)
    requires |states| == |steps| + 1
    decreases |steps|
  {
    if steps == [] then 0
    else (if steps[0] == Helper(states[0]) then 1 else 0) + HelpingSteps(states[1..], steps[1..])
  }

  /** In whatever order the goroutines run: while the supervisor sleeps unheard, a helping
      step stays possible, and after at most six of them (four once the context is
      cancelled) the channel has an error for it. So it never waits forever. */
  lemma {:induction false} NoLostWakeup(states: seq<Cycle>, steps: seq<Step>)
    requires IsRun(states, steps) && Inv(states[0]) && Unheard(states[0])
    requires forall k :: 0 <= k < |states| ==> states[k].chan == 0
    ensures Unheard(states[|steps|]) && Enabled(states[|steps|], Helper(states[|steps|]))
    ensures Distance(states[|steps|]) + HelpingSteps(states, steps) <= Distance(states[0])
    decreases |steps|
  {
    hide Enabled, Next, Helper, Distance, Inv, Unheard;
    if steps == [] {
      HelperHelps(states[0]);
    } else {
      var s, a := states[0], steps[0];
      assert states[1] == Next(s, a) && states[1].chan == 0;
      NobodyHinders(s, a);
      if a == Helper(s) { HelperHelps(s); }
      StepKeepsInv(s, a);
      NoLostWakeup(states[1..], steps[1..]);
    }
  }

  // ----- From possible to done

  datatype Actor = Environment | TheSupervisor | TheWatcher | TheOutPump | TheInPump

  function ActorOf(a: Step): Actor {
    match a
    case CancelContext => Environment
    case Arrive => Environment
    case Wake => TheWatcher
    case WatcherStops => TheWatcher
    case WatcherCloses => TheWatcher
    case Report => TheWatcher
    case WatcherExits => TheWatcher
    case Out(_) => TheOutPump
    case In(_) => TheInPump
    case _ => TheSupervisor
  }

  /** A step that is possible and wakes the supervisor or shortens the way. */
  predicate Helps(s: Cycle, h: Step) {
    Enabled(s, h) && (Next(s, h).chan > 0 || Distance(Next(s, h)) < Distance(s))
  }

  lemma HelpSurvivesStep(s: Cycle, h: Step, a: Step)
    requires Inv(s) && Unheard(s) && Helps(s, h) && Enabled(s, a) && Next(s, a).chan == 0
    ensures Helps(Next(s, a), h) || Distance(Next(s, a)) < Distance(s) || ActorOf(a) == ActorOf(h)
  {
  }

  /** A helping step stays possible, and keeps helping, until its own goroutine moves or the
      way has become shorter. So under a scheduler that does not starve a goroutine with a
      possible step, helping steps do happen. */
  lemma {:induction false} HelpPersists(states: seq<Cycle>, steps: seq<Step>, h: Step)
    requires IsRun(states, steps) && Inv(states[0]) && Unheard(states[0]) && Helps(states[0], h)
    requires forall k :: 0 <= k < |states| ==> states[k].chan == 0
    requires forall k :: 0 <= k < |steps| ==> ActorOf(steps[k]) != ActorOf(h)
    ensures Helps(states[|steps|], h) || Distance(states[|steps|]) < Distance(states[0])
    decreases |steps|
  {
    hide Enabled, Next, Helps, Distance, Inv, Unheard, ActorOf, Helper, HelpingSteps;
    if steps != [] {
      var s, a := states[0], steps[0];
      assert states[1] == Next(s, a) && states[1].chan == 0;
      HelpSurvivesStep(s, h, a);
      NobodyHinders(s, a);
      StepKeepsInv(s, a);
      if Helps(states[1], h) {
        HelpPersists(states[1..], steps[1..], h);
      } else {
        NoLostWakeup(states[1..], steps[1..]);
      }
    }
  }

  lemma StepKeepsInv(s: Cycle, a: Step)
    requires Inv(s) && Enabled(s, a)
    ensures Inv(Next(s, a))
  {
    hide Enabled, Next, ChannelInv, TeardownInv;
    StepKeepsChannel(s, a);
    StepKeepsTeardown(s, a);
  }

  // ----- The end of a cycle

  /** What the watcher can do once the shutdown channel is closed. */
  function WatcherStep(s: Cycle): Step {
    match s.watcher
    case Woken => WatcherStops
    case WatcherStopped => WatcherCloses
    case WatcherClosed => Report
    case _ => WatcherExits
  }

  function WatcherRank(w: Watcher): nat {
    match w
    case Watching => 5
    case Woken => 4
    case WatcherStopped => 3
    case WatcherClosed => 2
    case Reported(_) => 1
    case WatcherGone(_) => 0
  }

  /** After the supervisor has signalled the shutdown, the watcher can take a step until it
      is gone, and every step it takes brings it closer to that. */
  lemma WatcherEnds(s: Cycle, a: Step)
    requires Inv(s) && (s.supervisor == Signalled || s.supervisor.Joined?)
    ensures !s.watcher.WatcherGone? ==> Enabled(s, WatcherStep(s))
    ensures Enabled(s, a) ==>
              Next(s, a).watcher == s.watcher || WatcherRank(Next(s, a).watcher) < WatcherRank(s.watcher)
  {
    hide OutMoved, OutEnabled, InMoved, InEnabled;
  }

  function InStepOf(s: Cycle): Step {
    match s.inPump
    case InConn => if s.backlog > 0 then In(Deliver) else In(ConnFails(true))
    case ConnFailed(_) => In(ReactToConn)
    case DeviceFailed => In(ReactToDevice)
    case _ => In(InSend)
  }

  function InRank(s: Cycle): nat {
    match s.inPump
    case InConn => 3 + s.backlog
    case ConnFailed(_) => 2
    case DeviceFailed => 2
    case InSending => 1
    case InGone(_) => 0
  }

  /** So can the inbound pump, once the packets that had arrived are delivered. */
  lemma InboundPumpEnds(s: Cycle, a: Step)
    requires Inv(s) && (s.supervisor == Signalled || s.supervisor.Joined?)
    ensures !s.inPump.InGone? ==> Enabled(s, InStepOf(s))
    ensures Enabled(s, a) ==>
              if a.In? then InRank(Next(s, a)) < InRank(s) else InRank(Next(s, a)) == InRank(s)
  {
    hide OutMoved, OutEnabled;
  }

  function OutStepOf(p: OutPump): OutStep {
    match p
    case Checking => Check
    case Locking => Lock
    case InDevice => DeviceReturns(false)
    case ReadFailed => ReactToRead
    case GotPacket => Recheck
    case Writing => Written
    case WriteFailed(_) => ReactToWrite
    case _ => OutSend
  }

  /** How far the outbound pump of a cancelled cycle is from its end. */
  function OutRank(p: OutPump): nat {
    match p
    case Writing => 7
    case WriteFailed(_) => 6
    case Checking => 5
    case Locking => 4
    case InDevice => 3
    case ReadFailed => 2
    case GotPacket => 2
    case OutSending => 1
    case OutGone(_) => 0
  }

  /** The outbound pump ends too, and all of its steps but the return of the device are its
      own: only a parked device read can hold it. */
  lemma OutboundPumpEnds(s: Cycle, o: OutStep)
    requires Inv(s) && (s.supervisor == Signalled || s.supervisor.Joined?)
    ensures !s.outPump.OutGone? ==> Enabled(s, Out(OutStepOf(s.outPump)))
    ensures Enabled(s, Out(o)) ==> OutRank(Next(s, Out(o)).outPump) < OutRank(s.outPump)
  {
    hide InMoved, InEnabled;
  }

  // ----- What ends a cycle

  /** A step that gives a reason to end the cycle. Errors of the connection that are not fatal,
      and any number of packets, give none. */
  predicate IsReason(a: Step) {
    || a == CancelContext || a == Out(DeviceReturns(false)) || a == Out(WriteFails(true))
    || a == In(ConnFails(true)) || a == In(DeviceFails)
  }

  /** Nobody is leaving or has anything to report. */
  predicate IsQuiet(s: Cycle) {
    && s.supervisor == Waiting && s.watcher == Watching && s.chan == 0 && !s.Cancelled() && s.shutdownCloses == 0
    && s.outPump != ReadFailed && s.outPump != WriteFailed(true) && s.outPump != OutSending && !s.outPump.OutGone?
    && s.inPump != ConnFailed(true) && s.inPump != DeviceFailed && s.inPump != InSending && !s.inPump.InGone?
  }

  lemma QuietStays(s: Cycle, a: Step)
    requires IsQuiet(s) && Enabled(s, a) && !IsReason(a)
    ensures IsQuiet(Next(s, a))
  {
  }

  /** A cycle never ends without a reason: on every run without one, however long, both pumps are
      at work and the supervisor waits. */
  lemma {:induction false} NoEndWithoutReason(states: seq<Cycle>, steps: seq<Step>, k: nat)
    requires IsRun(states, steps) && states[0] == NewCycle(false) && k < |states|
    requires forall a :: a in steps ==> !IsReason(a)
    ensures IsQuiet(states[k])
  {
    hide Enabled, Next, IsReason;
    if k > 0 {
      NoEndWithoutReason(states, steps, k - 1);
      QuietStays(states[k - 1], steps[k - 1]);
    }
  }

  lemma Longer(states: seq<Cycle>, steps: seq<Step>, a: Step) returns (states': seq<Cycle>, steps': seq<Step>)
    requires IsRun(states, steps) && Enabled(states[|steps|], a)
    ensures IsRun(states', steps') && states'[0] == states[0] && |steps'| == |steps| + 1
    ensures states'[|steps'|] == Next(states[|steps|], a)
  {
    hide Enabled, Next;
    states', steps' := states + [Next(states[|steps|], a)], steps + [a];
  }

  /** A run on which both pumps have failed. */
  lemma BothPumpsFail() returns (states: seq<Cycle>, steps: seq<Step>)
    ensures IsRun(states, steps) && states[0] == NewCycle(false)
    ensures states[|steps|] == NewCycle(false).(chan := 2, outPump := OutGone(true), inPump := InGone(true))
  {
    hide IsRun;
    states, steps := [NewCycle(false)], [];
    assert IsRun(states, steps) by { NoStepsYet(NewCycle(false)); }
    states, steps := Longer(states, steps, Out(Check));
    states, steps := Longer(states, steps, Out(Lock));
    states, steps := Longer(states, steps, Out(DeviceReturns(false)));
    states, steps := Longer(states, steps, Out(ReactToRead));
    states, steps := Longer(states, steps, Out(OutSend));
    states, steps := Longer(states, steps, In(ConnFails(true)));
    states, steps := Longer(states, steps, In(ReactToConn));
    states, steps := Longer(states, steps, In(InSend));
  }

  /** The channel has room for two errors: when both pumps have failed before the supervisor
      looks, the watcher's report is dropped. */
  lemma ReportCanBeDropped() returns (states: seq<Cycle>, steps: seq<Step>)
    ensures IsRun(states, steps) && states[0] == NewCycle(false)
    ensures states[|steps|].chan == 2 && states[|steps|].watcher == Reported(false)
  {
    hide IsRun, OutMoved, OutEnabled, InMoved, InEnabled;
    states, steps := BothPumpsFail();
    states, steps := Longer(states, steps, CancelContext);
    states, steps := Longer(states, steps, Wake);
    states, steps := Longer(states, steps, WatcherStops);
    states, steps := Longer(states, steps, WatcherCloses);
    states, steps := Longer(states, steps, Report);
  }

  lemma NoStepsYet(s: Cycle)
    ensures IsRun([s], [])
  {
  }

  // ----- Packets of the outbound pump

  function Reads(steps: seq<Step>): (n: nat) {
    if steps == [] then 0
    else Reads(steps[..|steps| - 1]) + if steps[|steps| - 1] == Out(DeviceReturns(true)) then 1 else 0
  }

  predicate IsWrite(a: Step) { a == Out(Written) || (a.Out? && a.o.WriteFails?) }

  function Writes(steps: seq<Step>): (n: nat) {
    if steps == [] then 0 else Writes(steps[..|steps| - 1]) + if IsWrite(steps[|steps| - 1]) then 1 else 0
  }

  predicate Holds(p: OutPump) { p == GotPacket || p == Writing }

  /** Every packet read from the device is written to the connection, one after the other; only a
      cancelled cycle can end with one that is not. */
  lemma {:induction false} PacketsAreWritten(states: seq<Cycle>, steps: seq<Step>, ctxDone: bool)
    requires IsRun(states, steps) && states[0] == NewCycle(ctxDone)
    ensures var s, unwritten := states[|steps|], Reads(steps) - Writes(steps);
            || unwritten == (if Holds(s.outPump) then 1 else 0)
            || (unwritten == 1 && s.outPump == OutGone(false) && s.Cancelled())
    decreases |steps|
  {
    hide Enabled, Next, Holds, IsWrite;
    var n := |steps|;
    if n > 0 {
      PacketsAreWritten(states[..n], steps[..n - 1], ctxDone);
      assert states[n] == Next(states[n - 1], steps[n - 1]);
      OnePacket(states[n - 1], steps[n - 1]);
    } else {
      NewHoldsNothing(ctxDone);
    }
  }

  lemma NewHoldsNothing(ctxDone: bool)
    ensures !Holds(NewCycle(ctxDone).outPump)
  {
  }

  lemma OnePacket(s: Cycle, a: Step)
    requires Enabled(s, a)
    ensures var z := Next(s, a);
            var moved := (if a == Out(DeviceReturns(true)) then 1 else 0) - if IsWrite(a) then 1 else 0;
            var before, after := if Holds(s.outPump) then 1 else 0, if Holds(z.outPump) then 1 else 0;
            && (before + moved == after || (before + moved == 1 && z.outPump == OutGone(false) && z.Cancelled()))
            && (s.outPump == OutGone(false) ==> moved == 0 && z.outPump == OutGone(false))
            && (s.Cancelled() ==> z.Cancelled())
  {
    hide InMoved, InEnabled;
  }
}
