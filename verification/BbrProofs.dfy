/** What holds of the BBR sender in every reachable state. */
module BbrProofs {
  import opened Arithmetic
  import Pow2
  import opened BbrState

  datatype Action =
    | Acked(event: Event)
    | Sent(bytesInFlight: int, packetNumber: int)
    | Resize(size: int)

  /** SetMaxDatagramSize never shrinks datagrams, and an event has an acked or lost packet. */
  ghost predicate Allowed(s: Bbr, a: Action) {
    && (a.Acked? ==> a.event.Valid())
    && (a.Resize? ==> a.size >= s.maxDatagramSize)
  }

  function Step(s: Bbr, c: Config, a: Action): Bbr
    requires c.highGain != 0.0 && s.maxDatagramSize > 0
  {
    match a
    case Acked(e) => OnEvent(s, c, e)
    case Sent(bytesInFlight, packetNumber) => OnPacketSent(s, bytesInFlight, packetNumber)
    case Resize(size) => Resized(s, size)
  }

  // ----- Windows

  /** The limits are fixed multiples of the datagram size; the congestion window lies within
      them, and the recovery window is at least the minimum. */
  ghost predicate WindowInv(s: Bbr, c: Config) {
    && s.maxDatagramSize > 0
    && s.minCongestionWindow == MIN_WINDOW_PACKETS * s.maxDatagramSize
    && s.initialCongestionWindow == INITIAL_WINDOW_PACKETS * s.maxDatagramSize
    && s.maxCongestionWindow == c.maxWindowPackets * s.maxDatagramSize
    && s.minCongestionWindow <= s.congestionWindow <= s.maxCongestionWindow
    && s.minCongestionWindow <= s.recoveryWindow
  }

  lemma LimitsInOrder(s: Bbr, c: Config)
    requires c.Valid() && WindowInv(s, c)
    ensures 0 < s.minCongestionWindow < s.initialCongestionWindow <= s.maxCongestionWindow
  {
    MulMonotone(INITIAL_WINDOW_PACKETS, c.maxWindowPackets, s.maxDatagramSize);
  }

  /** Rescaling a whole number of datagrams is exact. */
  lemma RescaleExact(packets: int, from: int, to: int)
    requires from > 0
    ensures Rescale(packets * from, from, to) == packets * to
  {
    var window := packets * from;
    assert window * to == packets * from * to == packets * to * from by {
      assert packets * from * to == packets * (from * to) == packets * (to * from) == packets * to * from;
    }
    assert (packets * to * from) / from == packets * to by {
      Pow2.DivModUnique(packets * to * from, from, packets * to, 0);
    }
  }

  lemma ResizeKeepsWindows(s: Bbr, c: Config, size: int)
    requires c.Valid() && WindowInv(s, c) && size >= s.maxDatagramSize
    ensures WindowInv(Resized(s, size), c)
    ensures Resized(s, size).congestionWindow >= s.congestionWindow
  {
    hide Rescale;
    LimitsInOrder(s, c);
    RescaleExact(INITIAL_WINDOW_PACKETS, s.maxDatagramSize, size);
    RescaleExact(c.maxWindowPackets, s.maxDatagramSize, size);
    MulMonotone(INITIAL_WINDOW_PACKETS, c.maxWindowPackets, size);
    assert c.maxWindowPackets * size >= c.maxWindowPackets * s.maxDatagramSize by {
      MulMonotone(s.maxDatagramSize, size, c.maxWindowPackets);
      assert size * c.maxWindowPackets == c.maxWindowPackets * size;
      assert s.maxDatagramSize * c.maxWindowPackets == c.maxWindowPackets * s.maxDatagramSize;
    }
  }

  /** The window stays between its limits and, before full bandwidth, does not shrink. */
  lemma WindowClamped(s: Bbr, c: Config, rep: Report, statsMinRtt: nat)
    ensures s.minCongestionWindow <= s.congestionWindow <= s.maxCongestionWindow ==>
              var w := UpdateWindow(s, c, rep, statsMinRtt).congestionWindow;
              && s.minCongestionWindow <= w <= s.maxCongestionWindow
              && (!s.search.atFullBandwidth ==> w >= s.congestionWindow)
  {
    hide NextCongestionWindow;
    NextWindowClamped(s, c, rep, statsMinRtt);
  }

  lemma NextWindowClamped(s: Bbr, c: Config, rep: Report, statsMinRtt: nat)
    ensures s.minCongestionWindow <= s.congestionWindow <= s.maxCongestionWindow ==>
              var w := NextCongestionWindow(s, c, rep, statsMinRtt);
              && s.minCongestionWindow <= w <= s.maxCongestionWindow
              && w <= s.congestionWindow + rep.bytesAcked
              && (!s.search.atFullBandwidth ==> w >= s.congestionWindow)
  {
    hide Target;
  }

  lemma RecoveryRepaired(s: Bbr, rep: Report)
    requires s.recoveryWindow >= s.minCongestionWindow || (s.recoveryWindow == 0 && s.recoveryState != NotInRecovery)
    ensures UpdateRecoveryWindow(s, rep).recoveryWindow >= s.minCongestionWindow
  {
  }

  /** The windows an event ends with: the congestion window is clamped unless PROBE_RTT
      leaves it alone, and a zeroed recovery window is repaired. */
  lemma SizedWindows(s: Bbr, c: Config, e: Event, isRoundStart: bool)
    requires s.minCongestionWindow <= s.congestionWindow <= s.maxCongestionWindow
    requires s.recoveryWindow >= s.minCongestionWindow || (s.recoveryWindow == 0 && s.recoveryState != NotInRecovery)
    ensures var z := Sized(s, c, e, isRoundStart);
            && z.minCongestionWindow <= z.congestionWindow <= z.maxCongestionWindow
            && z.minCongestionWindow <= z.recoveryWindow
            && (!z.search.atFullBandwidth ==> z.congestionWindow >= s.congestionWindow)
  {
    hide UpdateWindow, UpdateRecoveryWindow, UpdatePacingRate;
    var s1 := UpdatePacingRate(s, c, e.report.bytesLost, e.statsMinRtt);
    WindowClamped(s1, c, e.report, e.statsMinRtt);
    RecoveryRepaired(UpdateWindow(s1, c, e.report, e.statsMinRtt), e.report);
  }

  /** Every event leaves the congestion window within its limits and the recovery window at
      least at the minimum; before full bandwidth the congestion window does not shrink. */
  lemma EventKeepsWindows(s: Bbr, c: Config, e: Event)
    requires c.Valid() && WindowInv(s, c)
    ensures WindowInv(OnEvent(s, c, e), c)
    ensures !OnEvent(s, c, e).search.atFullBandwidth ==> OnEvent(s, c, e).congestionWindow >= s.congestionWindow
  {
    hide Measured, Moded, Sized, IsRoundStart, MinRttExpired;
    LimitsInOrder(s, c);
    var m := Measured(s, e);
    SizedWindows(Moded(m, c, e, IsRoundStart(s, e), MinRttExpired(s, e.now, e.report)), c, e, IsRoundStart(s, e));
  }

  // ----- Modes

  /** How mode, gain and the full-bandwidth flag go together between events. */
  ghost predicate ModeInv(s: Bbr, c: Config)
    requires c.highGain != 0.0
  {
    && s.cycleOffset < GAIN_CYCLE_LENGTH
    && match s.mode
       case Startup => !s.search.atFullBandwidth && s.pacingGain == c.highGain
       case Drain => s.search.atFullBandwidth && s.pacingGain == c.DrainGain()
       case ProbeBw => s.search.atFullBandwidth && (s.pacingGain == PACING_GAIN[s.cycleOffset] || Held(s, c))
       case ProbeRtt => s.pacingGain == 1.0
  }

  /** The low gain is kept beyond its place in the cycle, to drain the queue to the target. */
  ghost predicate Held(s: Bbr, c: Config) {
    c.drainToTarget && s.pacingGain == 0.75 && 2 <= s.cycleOffset < GAIN_CYCLE_LENGTH
  }

  lemma CycleKeepsGain(s: Bbr, c: Config, e: Event)
    requires s.mode == ProbeBw && s.cycleOffset < GAIN_CYCLE_LENGTH
    requires s.pacingGain == PACING_GAIN[s.cycleOffset] || Held(s, c)
    ensures var t := UpdateCycle(s, c, e);
            && t.cycleOffset < GAIN_CYCLE_LENGTH
            && (t.pacingGain == PACING_GAIN[t.cycleOffset] || Held(t, c))
            && (t.cycleOffset == s.cycleOffset || t.cycleOffset == (s.cycleOffset + 1) % GAIN_CYCLE_LENGTH)
            && (Held(t, c) && t.cycleOffset != s.cycleOffset ==> t.cycleOffset == s.cycleOffset + 1)
  {
    hide Target, AdvancesCycle;
  }

  /** The mode changes an event may make. */
  ghost predicate ModeChange(s: Bbr, z: Bbr) {
    && (s.search.atFullBandwidth ==> z.search.atFullBandwidth)
    && (s.mode != ProbeBw && z.mode == ProbeBw ==>
          z.cycleOffset < GAIN_CYCLE_LENGTH && z.cycleOffset != 1 && z.pacingGain == PACING_GAIN[z.cycleOffset])
    && (z.mode == Startup && s.mode != Startup ==> s.mode == ProbeRtt)
    && (z.mode == Drain ==> s.mode == Startup || s.mode == Drain)
  }

  /** Every event keeps the mode invariant; full bandwidth once reached stays; PROBE_BW
      starts at any offset but 1; only PROBE_RTT returns to STARTUP. */
  lemma EventKeepsModes(s: Bbr, c: Config, e: Event)
    requires c.Valid() && ModeInv(s, c)
    ensures ModeInv(OnEvent(s, c, e), c) && ModeChange(s, OnEvent(s, c, e))
  {
    hide Measured, Moded, Sized, IsRoundStart, MinRttExpired;
    ModedModes(Measured(s, e), c, e, IsRoundStart(s, e), MinRttExpired(s, e.now, e.report));
  }

  lemma ExitKeepsModes(s: Bbr, c: Config, e: Event)
    requires c.Valid() && s.cycleOffset < GAIN_CYCLE_LENGTH
    requires ModeInv(s, c) || (s.mode == Startup && s.pacingGain == c.highGain)
    ensures var z := ExitStartupOrDrain(s, c, e);
            && ModeInv(z, c) && ModeChange(s, z) && z.exitingQuiescence == s.exitingQuiescence
            && (z.mode == s.mode == ProbeBw ==> z.cycleOffset == s.cycleOffset && z.pacingGain == s.pacingGain)
            && (s.mode == ProbeRtt <==> z.mode == ProbeRtt)
  {
    hide Target, StartOffset;
  }

  lemma InProbeRttKeepsModes(s: Bbr, c: Config, e: Event, isRoundStart: bool)
    requires c.Valid() && ModeInv(s, c) && s.mode == ProbeRtt
    ensures var z := InProbeRtt(s, c, e, isRoundStart);
            && ModeInv(z, c) && ModeChange(s, z)
            && (s.exitProbeRttAt == 0 ==> z.mode == ProbeRtt)
  {
    hide StartOffset;
  }

  lemma ProbeRttKeepsModes(s: Bbr, c: Config, e: Event, isRoundStart: bool, expired: bool)
    requires c.Valid() && ModeInv(s, c)
    ensures var z := EnterOrExitProbeRtt(s, c, e, isRoundStart, expired);
            && ModeInv(z, c) && ModeChange(s, z)
            && (z.mode == s.mode == ProbeBw ==> z.cycleOffset == s.cycleOffset && z.pacingGain == s.pacingGain)
            && (s.mode != ProbeRtt ==> z.mode == s.mode || z.mode == ProbeRtt)
  {
    hide InProbeRtt;
    var s1 := EnteredProbeRtt(s, expired);
    if s1.mode == ProbeRtt { InProbeRttKeepsModes(s1, c, e, isRoundStart); }
  }

  lemma ModedModes(s: Bbr, c: Config, e: Event, isRoundStart: bool, expired: bool)
    requires c.Valid() && ModeInv(s, c)
    ensures var z := Moded(s, c, e, isRoundStart, expired);
            && ModeInv(z, c) && ModeChange(s, z)
            && (s.mode == z.mode == ProbeBw ==>
                  z.cycleOffset == UpdateCycle(s, c, e).cycleOffset && z.pacingGain == UpdateCycle(s, c, e).pacingGain)
  {
    hide UpdateCycle, CheckFullBandwidth, ExitStartupOrDrain, EnterOrExitProbeRtt;
    if s.mode == ProbeBw { CycleKeepsGain(s, c, e); }
    var s1 := if s.mode == ProbeBw then UpdateCycle(s, c, e) else s;
    var s2 := if isRoundStart && !s1.search.atFullBandwidth then CheckFullBandwidth(s1, c, e.report) else s1;
    ExitKeepsModes(s2, c, e);
    ProbeRttKeepsModes(ExitStartupOrDrain(s2, c, e), c, e, isRoundStart, expired);
  }

  // ----- Whole runs

  ghost predicate Inv(s: Bbr, c: Config)
    requires c.highGain != 0.0
  {
    WindowInv(s, c) && ModeInv(s, c)
  }

  lemma StepKeepsInv(s: Bbr, c: Config, a: Action)
    requires c.Valid() && Inv(s, c) && Allowed(s, a)
    ensures Inv(Step(s, c, a), c)
  {
    hide OnEvent, Resized;
    match a
    case Acked(e) => EventKeepsWindows(s, c, e); EventKeepsModes(s, c, e);
    case Sent(bytesInFlight, packetNumber) =>
    case Resize(size) => ResizeKeepsWindows(s, c, size); ResizeKeepsModes(s, size);
  }

  lemma ResizeKeepsModes(s: Bbr, size: int)
    requires s.maxDatagramSize > 0
    ensures var z := Resized(s, size);
            KeepsModes(s, z)
  {
    hide Rescale;
  }

  lemma InitialInv(c: Config, size: int)
    requires c.Valid() && size > 0
    ensures Inv(Initial(c, size), c)
  {
    MulMonotone(INITIAL_WINDOW_PACKETS, c.maxWindowPackets, size);
  }

  /** Consecutive states of a connection. */
  ghost predicate IsRun(states: seq<Bbr>, c: Config, actions: seq<Action>)
    requires c.highGain != 0.0
  {
    && |states| == |actions| + 1
    && (exists size: int :: size > 0 && states[0] == Initial(c, size))
    && forall i :: 0 <= i < |actions| ==>
         && Allowed(states[i], actions[i])
         && (states[i].maxDatagramSize > 0 ==> states[i + 1] == Step(states[i], c, actions[i]))
  }

  /** In every state of every run the window is between four packets and the maximum, so an
      idle connection may always send. */
  lemma {:induction false} WindowAlwaysInBounds(states: seq<Bbr>, c: Config, actions: seq<Action>, i: nat)
    requires c.Valid() && IsRun(states, c, actions) && i < |states|
    ensures Inv(states[i], c)
    ensures states[i].minCongestionWindow <= GetCongestionWindow(states[i]) <= states[i].maxCongestionWindow
    ensures CanSend(states[i], 0)
  {
    if i == 0 {
      var size: int :| size > 0 && states[0] == Initial(c, size);
      InitialInv(c, size);
    } else {
      WindowAlwaysInBounds(states, c, actions, i - 1);
      StepKeepsInv(states[i - 1], c, actions[i - 1]);
    }
    LimitsInOrder(states[i], c);
  }

  // ----- The held gain ends within the cycle

  /** An event that does not advance the cycle while the low gain is held comes within one
      minimum RTT of the last advance. */
  lemma HoldAdvancesEveryRtt(s: Bbr, c: Config, e: Event)
    requires s.pacingGain == 0.75 && s.cycleOffset < GAIN_CYCLE_LENGTH &&
              UpdateCycle(s, c, e).cycleOffset == s.cycleOffset
    ensures e.now <= s.lastCycleStart + MinRtt(s, e.statsMinRtt)
  {
    hide Target;
  }

  function Advances(states: seq<Bbr>): (n: nat) {
    if |states| <= 1 then 0
    else
      var n := |states| - 1;
      Advances(states[..n]) + if states[n].cycleOffset != states[n - 1].cycleOffset then 1 else 0
  }

  lemma HeldEventAdvancesByOne(s: Bbr, c: Config, e: Event)
    requires c.Valid() && ModeInv(s, c) && s.mode == ProbeBw && Held(s, c)
    requires OnEvent(s, c, e).mode == ProbeBw && Held(OnEvent(s, c, e), c)
    ensures var z := OnEvent(s, c, e); z.cycleOffset == s.cycleOffset || z.cycleOffset == s.cycleOffset + 1
  {
    hide Measured, Moded, Sized, IsRoundStart, MinRttExpired, UpdateCycle;
    var m := Measured(s, e);
    ModedModes(m, c, e, IsRoundStart(s, e), MinRttExpired(s, e.now, e.report));
    CycleKeepsGain(m, c, e);
  }

  lemma OtherActionsKeepCycle(s: Bbr, c: Config, a: Action)
    requires c.highGain != 0.0 && s.maxDatagramSize > 0 && !a.Acked?
    ensures Step(s, c, a).cycleOffset == s.cycleOffset
  {
    hide Rescale, OnEvent;
  }

  /** Over any stretch in PROBE_BW during which the low gain stays held, the cycle advances
      at most five times: the hold is over before the cycle comes round. */
  lemma {:induction false} HoldEndsWithinCycle(states: seq<Bbr>, c: Config, actions: seq<Action>)
    requires c.Valid() && |states| == |actions| + 1
    requires forall i :: 0 <= i < |states| ==>
               ModeInv(states[i], c) && states[i].mode == ProbeBw && Held(states[i], c) && states[i].maxDatagramSize > 0
    requires forall i :: 0 <= i < |actions| ==> states[i + 1] == Step(states[i], c, actions[i])
    ensures states[|actions|].cycleOffset == states[0].cycleOffset + Advances(states)
    ensures Advances(states) <= 5
    decreases |actions|
  {
    hide OnEvent, Resized;
    var n := |actions|;
    if n > 0 {
      HoldEndsWithinCycle(states[..n], c, actions[..n - 1]);
      var s, a := states[n - 1], actions[n - 1];
      assert states[n] == Step(s, c, a);
      if a.Acked? { HeldEventAdvancesByOne(s, c, a.event); } else { OtherActionsKeepCycle(s, c, a); }
    }
  }
}
