/** Readers of the device over many cycles of the tunnel (api/tunnel.go). Each cycle has a
    readMu of its own, so a pump that outlives its cycle and the pump of the next one do not
    exclude each other. */
module TunnelReaders {
  import opened TunnelCycle

  /** The current cycle, and the outbound pumps that outlived theirs. Those are cancelled,
      and their error channels have room. */
  datatype Tunnel = Tunnel(cycle: Cycle, stale: seq<OutPump>)

  datatype TunnelStep =
    | Current(step: Step)
    | Stale(index: nat, move: OutStep)
    | Reconnect

  function Start(): Tunnel { Tunnel(NewCycle(false), []) }

  predicate CanStep(t: Tunnel, a: TunnelStep) {
    match a
    case Current(step) => Enabled(t.cycle, step)
    case Stale(i, move) => i < |t.stale| && OutEnabled(t.stale[i], move, true)
    case Reconnect => t.cycle.supervisor.Joined? && !t.cycle.ctxDone
  }

  function After(t: Tunnel, a: TunnelStep): Tunnel
    requires CanStep(t, a)
  {
    match a
    case Current(step) => t.(cycle := Next(t.cycle, step))
    case Stale(i, move) => t.(stale := t.stale[i := OutMoved(t.stale[i], move, true)])
    case Reconnect => Tunnel(NewCycle(false), if t.cycle.outPump.OutGone? then t.stale else t.stale + [t.cycle.outPump])
  }

  function InDeviceCount(ps: seq<OutPump>): (n: nat) {
    if ps == [] then 0 else (if ps[0] == InDevice then 1 else 0) + InDeviceCount(ps[1..])
  }

  /** How many pumps are inside the device's ReadPacket. */
  function Readers(t: Tunnel): nat {
    (if t.cycle.outPump == InDevice then 1 else 0) + InDeviceCount(t.stale)
  }

  ghost predicate IsTunnelRun(states: seq<Tunnel>, steps: seq<TunnelStep>) {
    && |states| == |steps| + 1
    && states[0] == Start()
    && forall k :: 0 <= k < |steps| ==> CanStep(states[k], steps[k]) && states[k + 1] == After(states[k], steps[k])
  }

  /** The run reconnects although the outbound pump of the cycle is not gone, which takes an
      expired grace period. */
  predicate LeavesPump(t: Tunnel, a: TunnelStep) {
    a == Reconnect && !t.cycle.outPump.OutGone?
  }

  /** A reconnect leaves a pump behind only after the grace period has expired. */
  lemma LeavingTakesTimeout(t: Tunnel, a: TunnelStep)
    requires TunnelCycle.Inv(t.cycle) && CanStep(t, a) && LeavesPump(t, a)
    ensures t.cycle.supervisor == Joined(false)
  {
  }

  // ----- Safety as long as no pump is left behind

  lemma {:induction false} NobodyLeftBehind(states: seq<Tunnel>, steps: seq<TunnelStep>, k: nat)
    requires IsTunnelRun(states, steps) && k < |states|
    requires forall j :: 0 <= j < k ==> !LeavesPump(states[j], steps[j])
    ensures states[k].stale == []
  {
    hide Enabled, Next, OutEnabled, OutMoved;
    if k > 0 {
      NobodyLeftBehind(states, steps, k - 1);
      assert CanStep(states[k - 1], steps[k - 1]) && !LeavesPump(states[k - 1], steps[k - 1]);
    }
  }

  /** As long as no pump is left behind there is at most one reader in the device. */
  lemma OneReaderWithoutTimeout(states: seq<Tunnel>, steps: seq<TunnelStep>, k: nat)
    requires IsTunnelRun(states, steps) && k < |states|
    requires forall j :: 0 <= j < k ==> !LeavesPump(states[j], steps[j])
    ensures Readers(states[k]) <= 1
  {
    NobodyLeftBehind(states, steps, k);
  }

  // ----- Two readers exactly if a stale one is still in the device

  /** The new pump's first two steps take it into the device whatever stale pumps do: the
      number of readers is then one more than the stale readers. So readMu serialises the
      new reader exactly if no stale pump is still reading. */
  lemma NewReaderIsNotSerialised(t: Tunnel)
    requires t.cycle == NewCycle(false)
    ensures CanStep(t, Current(Out(Check)))
    ensures var t1 := After(t, Current(Out(Check)));
            CanStep(t1, Current(Out(Lock))) &&
            var t2 := After(t1, Current(Out(Lock)));
            && Readers(t2) == 1 + InDeviceCount(t.stale)
            && (Readers(t2) <= 1 <==> forall i :: 0 <= i < |t.stale| ==> t.stale[i] != InDevice)
  {
    NoneInDevice(t.stale);
  }

  lemma {:induction false} NoneInDevice(ps: seq<OutPump>)
    ensures InDeviceCount(ps) == 0 <==> forall i :: 0 <= i < |ps| ==> ps[i] != InDevice
  {
    if ps != [] {
      NoneInDevice(ps[1..]);
      assert forall i :: 0 < i < |ps| ==> ps[i] == ps[1..][i - 1];
    }
  }

  // ----- What a stale reader takes is lost

  /** A stale pump on its way out of the device. */
  predicate Unsent(p: OutPump) { p == InDevice || p == ReadFailed || p == GotPacket || p == OutGone(false) }

  /** Only its own steps move a stale pump. */
  lemma StaleMoves(t: Tunnel, a: TunnelStep, i: nat)
    requires CanStep(t, a) && i < |t.stale|
    ensures i < |After(t, a).stale|
    ensures After(t, a).stale[i] ==
              if a.Stale? && a.index == i then OutMoved(t.stale[i], a.move, true) else t.stale[i]
  {
    hide Enabled, Next, OutEnabled, OutMoved;
  }

  /** On its way out it never writes, never goes back into the device, and ends. */
  lemma UnsentMoves(p: OutPump, move: OutStep, room: bool)
    requires Unsent(p) && OutEnabled(p, move, room)
    ensures move != Written && Unsent(OutMoved(p, move, true)) && OutMoved(p, move, true) != InDevice
    ensures p == GotPacket ==> OutMoved(p, move, true) == OutGone(false)
  {
  }

  /** On any run, what a stale reader takes from the device is lost: from state k on, in which
      it is in the device, it takes at most one packet and writes none, and when it has one
      it keeps it until it is gone. */
  lemma {:induction false} StaleReaderLosesPacket(states: seq<Tunnel>, steps: seq<TunnelStep>, k: nat, n: nat, i: nat)
    requires IsTunnelRun(states, steps) && k <= n < |states| && i < |states[k].stale|
    requires states[k].stale[i] == InDevice || states[k].stale[i] == GotPacket
    ensures i < |states[n].stale| && Unsent(states[n].stale[i])
    ensures forall m :: k <= m < n ==> steps[m] != Stale(i, Written)
    ensures forall m :: k <= m < n && i < |states[m].stale| && states[m].stale[i] == GotPacket ==>
              states[n].stale[i] == GotPacket || states[n].stale[i] == OutGone(false)
  {
    hide OutEnabled, OutMoved, Enabled, Next;
    if n > k {
      var s, a := states[n - 1], steps[n - 1];
      StaleReaderLosesPacket(states, steps, k, n - 1, i);
      StaleMoves(s, a, i);
      if a.Stale? && a.index == i {
        UnsentMoves(s.stale[i], a.move, true);
        GoneStays(s.stale[i], a.move);
      }
    }
  }

  lemma GoneStays(p: OutPump, move: OutStep)
    requires OutEnabled(p, move, true)
    ensures !p.OutGone?
  {
  }

  // ----- A run with two readers

  /** The connection breaks while the device read is parked; the grace period expires. */
  const BREAK: seq<Step> := [Out(Check), Out(Lock), In(ConnFails(true)), In(ReactToConn), In(InSend),
                             Receive, StopPumps, CloseConn, SignalShutdown, JoinTimeout]

  function Broken(n: nat): Cycle
    requires n <= 10
  {
    var s := NewCycle(false);
    var reading := s.(outPump := InDevice);
    match n
    case 0 => s
    case 1 => s.(outPump := Locking)
    case 2 => reading
    case 3 => reading.(inPump := ConnFailed(true))
    case 4 => reading.(inPump := InSending)
    case 5 => reading.(inPump := InGone(true), chan := 1)
    case 6 => reading.(inPump := InGone(true), supervisor := Received)
    case 7 => reading.(inPump := InGone(true), supervisor := StoppedPumps, pumpsStopped := true)
    case 8 => reading.(inPump := InGone(true), supervisor := ClosedConn, pumpsStopped := true, connClosed := true)
    case 9 => reading.(inPump := InGone(true), supervisor := Signalled, pumpsStopped := true, connClosed := true,
        shutdownCloses := 1)
    case _ => reading.(inPump := InGone(true), supervisor := Joined(false), pumpsStopped := true, connClosed := true,
        shutdownCloses := 1)
  }

  lemma BreakStep(n: nat)
    requires n < 10
    ensures Enabled(Broken(n), BREAK[n]) && Next(Broken(n), BREAK[n]) == Broken(n + 1)
  {
  }

  /** readMu does not serialise device readers across cycles: this run ends with two. */
  lemma TwoReadersPossible() returns (states: seq<Tunnel>, steps: seq<TunnelStep>)
    ensures IsTunnelRun(states, steps) && Readers(states[|steps|]) == 2
  {
    hide Enabled, Next, Broken;
    assert Broken(0) == NewCycle(false) && Broken(10).outPump == InDevice
           && Broken(10).supervisor == Joined(false) && !Broken(10).ctxDone by { BrokenEnds(); }
    states := seq(11, n requires 0 <= n < 11 => Tunnel(Broken(n), []));
    steps := seq(10, n requires 0 <= n < 10 => Current(BREAK[n]));
    forall k | 0 <= k < 10 ensures CanStep(states[k], steps[k]) && states[k + 1] == After(states[k], steps[k]) {
      BreakStep(k);
    }
    var t0 := Tunnel(NewCycle(false), [InDevice]);
    NewReaderIsNotSerialised(t0);
    var t1 := After(t0, Current(Out(Check)));
    var t2 := After(t1, Current(Out(Lock)));
    states := states + [t0, t1, t2];
    steps := steps + [Reconnect, Current(Out(Check)), Current(Out(Lock))];
    assert After(Tunnel(Broken(10), []), Reconnect) == t0;
  }

  lemma BrokenEnds()
    ensures Broken(0) == NewCycle(false) && Broken(10).outPump == InDevice
    ensures Broken(10).supervisor == Joined(false) && !Broken(10).ctxDone
  {
  }
}
