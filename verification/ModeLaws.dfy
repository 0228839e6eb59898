/** The modes of the sender, in numbers: when each is entered and left, and with what gains
    (internal/congestion/bbr/bbr_sender.go). */
module ModeLaws {
  import WF = WindowedFilter
  import opened BbrState
  import opened BbrProofs
  import opened BbrRuns
  import opened WindowLaws

  // ----- What an event measures

  /** The last packet acknowledged was sent after the round's end, or no round has an end yet. */
  predicate PassesEnd(s: Bbr, e: Event) {
    e.acked != [] && (s.currentRoundTripEnd == -1 || e.acked[|e.acked| - 1].number > s.currentRoundTripEnd)
  }

  /** An RTT sample comes more than ten seconds after the minimum RTT was taken. */
  predicate IsOld(s: Bbr, e: Event) {
    e.report.sampleRtt != 0x7fff_ffff_ffff_ffff && s.minRtt != 0 && e.now > s.minRttTimestamp + 10_000_000_000
  }

  predicate TakesRtt(s: Bbr, e: Event) {
    && e.report.sampleRtt != 0x7fff_ffff_ffff_ffff
    && (s.minRtt == 0 || e.report.sampleRtt < s.minRtt || IsOld(s, e))
  }

  lemma MeasuredIs(s: Bbr, e: Event)
    ensures var m := Measured(s, e);
            && m.mode == s.mode && m.pacingGain == s.pacingGain && m.congestionWindowGain == s.congestionWindowGain
            && m.cycleOffset == s.cycleOffset && m.lastCycleStart == s.lastCycleStart && m.search == s.search
            && m.exitProbeRttAt == s.exitProbeRttAt && m.probeRttRoundPassed == s.probeRttRoundPassed
            && m.exitingQuiescence == s.exitingQuiescence && KeepsLimits(s, m)
            && m.minRttTimestamp == (if TakesRtt(s, e) then e.now else s.minRttTimestamp)
            && m.minRtt == (if TakesRtt(s, e) then e.report.sampleRtt else s.minRtt)
            && m.roundTripCount == s.roundTripCount + if PassesEnd(s, e) then 1 else 0
    ensures IsRoundStart(s, e) == PassesEnd(s, e) && MinRttExpired(s, e.now, e.report) == IsOld(s, e)
  {
    hide SumAcked, SumLost, UpdateRecovery, WF.Updated;
  }

  // ----- Modes

  /** What STARTUP and DRAIN become: DRAIN at full bandwidth, and PROBE_BW once no more than
      `t` bytes are in flight. */
  function Drained(mode: Mode, full: bool, inFlight: int, t: int): Mode {
    if (mode == Startup && full) || mode == Drain then (if inFlight <= t then ProbeBw else Drain) else mode
  }

  /** PROBE_RTT may end: its time has come and a round has passed. */
  predicate MayLeave(s: Bbr, e: Event) {
    s.exitProbeRttAt != 0 && e.now >= s.exitProbeRttAt && (s.probeRttRoundPassed || PassesEnd(s, e))
  }

  /** The mode after an event: PROBE_RTT when the minimum RTT is old, unless the connection has
      just been idle; back to PROBE_BW or, before full bandwidth, to STARTUP. */
  function NextMode(s: Bbr, e: Event, full: bool, inFlight: int, t: int): Mode {
    if s.mode == ProbeRtt then (if !MayLeave(s, e) then ProbeRtt else if full then ProbeBw else Startup)
    else if IsOld(s, e) && !s.exitingQuiescence then ProbeRtt
    else Drained(s.mode, full, inFlight, t)
  }

  lemma CycleKeeps(m: Bbr, c: Config, e: Event)
    ensures var z := UpdateCycle(m, c, e);
            && z.exitProbeRttAt == m.exitProbeRttAt && z.minRttTimestamp == m.minRttTimestamp
            && z.congestionWindowGain == m.congestionWindowGain
  {
    hide AdvancesCycle, Target;
  }

  lemma CheckKeeps(m: Bbr, c: Config, rep: Report)
    ensures var z := CheckFullBandwidth(m, c, rep);
            && z.minRttTimestamp == m.minRttTimestamp && z.congestionWindowGain == m.congestionWindowGain
            && z.lastCycleStart == m.lastCycleStart
  {
    hide CheckGrowth, TooManyLosses;
  }

  /** The mode before PROBE_RTT is looked at. */
  lemma BeforeMode(m: Bbr, c: Config, e: Event, rs: bool)
    requires c.highGain != 0.0
    ensures var b := BeforeProbeRtt(m, c, e, rs);
            && b.mode == Drained(m.mode, b.search.atFullBandwidth, b.bytesInFlight, Target(b, e.statsMinRtt, 1.0))
            && b.minRttTimestamp == m.minRttTimestamp
  {
    hide Target, StartOffset, UpdateCycle, CheckFullBandwidth;
    CycleKeeps(m, c, e);
    var s1 := if m.mode == ProbeBw then UpdateCycle(m, c, e) else m;
    CheckKeeps(s1, c, e.report);
    var s2 := if rs && !s1.search.atFullBandwidth then CheckFullBandwidth(s1, c, e.report) else s1;
    ExitMode(s2, c, e);
  }

  lemma ExitMode(m: Bbr, c: Config, e: Event)
    requires c.highGain != 0.0
    ensures var b := ExitStartupOrDrain(m, c, e);
            && b.mode == Drained(m.mode, m.search.atFullBandwidth, m.bytesInFlight, Target(b, e.statsMinRtt, 1.0))
            && b.minRttTimestamp == m.minRttTimestamp
  {
    hide StartOffset, Gained, BdpFromRttAndBandwidth;
  }

  /** PROBE_RTT is kept or left, and the time of its end set when few bytes are in flight. */
  lemma InProbeMode(b: Bbr, c: Config, e: Event, rs: bool)
    requires b.mode == ProbeRtt
    ensures var z := InProbeRtt(b, c, e, rs);
            var leaves := b.exitProbeRttAt != 0 && e.now >= b.exitProbeRttAt && (b.probeRttRoundPassed || rs);
            && z.mode == (if !leaves then ProbeRtt else if b.search.atFullBandwidth then ProbeBw else Startup)
            && z.minRttTimestamp == (if leaves then e.now else b.minRttTimestamp)
            && (b.exitProbeRttAt == 0 ==>
                  if b.bytesInFlight < b.minCongestionWindow + c.maxPacketBufferSize
                  then z.exitProbeRttAt == e.now + 200_000_000 && !z.probeRttRoundPassed else z.exitProbeRttAt == 0)
  {
    hide StartOffset;
  }

  /** PROBE_RTT is entered, kept or left. */
  lemma ProbeMode(b: Bbr, c: Config, e: Event, rs: bool, old_: bool)
    ensures var z := EnterOrExitProbeRtt(b, c, e, rs, old_);
            var leaves := b.mode == ProbeRtt && b.exitProbeRttAt != 0 && e.now >= b.exitProbeRttAt
                          && (b.probeRttRoundPassed || rs);
            && z.search == b.search && !z.exitingQuiescence
            && z.mode == (if leaves then (if b.search.atFullBandwidth then ProbeBw else Startup)
                          else if b.mode == ProbeRtt || (old_ && !b.exitingQuiescence) then ProbeRtt else b.mode)
            && z.minRttTimestamp == (if leaves then e.now else b.minRttTimestamp)
            && (z.mode == ProbeRtt && (b.mode != ProbeRtt || b.exitProbeRttAt == 0) ==>
                  if b.bytesInFlight < b.minCongestionWindow + c.maxPacketBufferSize
                  then z.exitProbeRttAt == e.now + 200_000_000 && !z.probeRttRoundPassed else z.exitProbeRttAt == 0)
  {
    hide InProbeRtt;
    var b1 := EnteredProbeRtt(b, old_);
    if b1.mode == ProbeRtt { InProbeMode(b1, c, e, rs); }
  }

  lemma ModedMode(m: Bbr, c: Config, e: Event, rs: bool, old_: bool)
    requires c.highGain != 0.0
    ensures var z := Moded(m, c, e, rs, old_);
            var leaves := m.mode == ProbeRtt && m.exitProbeRttAt != 0 && e.now >= m.exitProbeRttAt
                          && (m.probeRttRoundPassed || rs);
            && KeepsEstimates(m, z) && KeepsLimits(m, z) && z.bytesInFlight == m.bytesInFlight && !z.exitingQuiescence
            && z.mode == (if leaves then (if z.search.atFullBandwidth then ProbeBw else Startup)
                          else if m.mode == ProbeRtt || (old_ && !m.exitingQuiescence) then ProbeRtt
                          else Drained(m.mode, z.search.atFullBandwidth, z.bytesInFlight,
                                       Target(z, e.statsMinRtt, 1.0)))
            && z.minRttTimestamp == (if leaves then e.now else m.minRttTimestamp)
            && (z.mode == ProbeRtt && (m.mode != ProbeRtt || m.exitProbeRttAt == 0) ==>
                  if z.bytesInFlight < z.minCongestionWindow + c.maxPacketBufferSize
                  then z.exitProbeRttAt == e.now + 200_000_000 && !z.probeRttRoundPassed else z.exitProbeRttAt == 0)
  {
    hide Target, BeforeProbeRtt, EnterOrExitProbeRtt;
    var b := BeforeProbeRtt(m, c, e, rs);
    BeforeMode(m, c, e, rs);
    ProbeMode(b, c, e, rs, old_);
    SameTarget(b, Moded(m, c, e, rs, old_), e.statsMinRtt, 1.0);
  }

  lemma SizedKeeps(m: Bbr, c: Config, e: Event, rs: bool)
    ensures var z := Sized(m, c, e, rs);
            && KeepsMinRtt(m, z) && z.exitingQuiescence == m.exitingQuiescence
            && z.congestionWindowGain == m.congestionWindowGain
  {
    hide UpdatePacingRate, UpdateWindow, UpdateRecoveryWindow;
  }

  /** The mode after an event, when the minimum RTT was taken, and when PROBE_RTT may end. */
  lemma ModeAfterEvent(s: Bbr, c: Config, e: Event) returns (t: int)
    requires c.Valid() && s.initialCongestionWindow >= 0
    ensures var z := OnEvent(s, c, e);
            && IsTarget(t, z, e.statsMinRtt, 1.0)
            && z.mode == NextMode(s, e, z.search.atFullBandwidth, z.bytesInFlight, t)
            && z.minRttTimestamp ==
               (if TakesRtt(s, e) || (s.mode == ProbeRtt && MayLeave(s, e)) then e.now else s.minRttTimestamp)
            && (z.mode == ProbeRtt && (s.mode != ProbeRtt || s.exitProbeRttAt == 0) ==>
                  if z.bytesInFlight < z.minCongestionWindow + c.maxPacketBufferSize
                  then z.exitProbeRttAt == e.now + 200_000_000 && !z.probeRttRoundPassed else z.exitProbeRttAt == 0)
            && !z.exitingQuiescence
  {
    hide Measured, Moded, Sized, Target, IsTarget;
    var m, rs, old_ := Measured(s, e), IsRoundStart(s, e), MinRttExpired(s, e.now, e.report);
    MeasuredIs(s, e);
    ModedMode(m, c, e, rs, old_);
    var u, z := Moded(m, c, e, rs, old_), OnEvent(s, c, e);
    SizedKeeps(u, c, e, rs);
    t := Target(z, e.statsMinRtt, 1.0);
    SameTarget(u, z, e.statsMinRtt, 1.0);
    TargetIs(z, e.statsMinRtt, 1.0);
  }

  // ----- Gains

  /** The window's gain is that of the mode; PROBE_RTT keeps the one before it. */
  ghost predicate GainInv(s: Bbr, c: Config) {
    match s.mode
    case Startup => s.congestionWindowGain == c.highCwndGain
    case Drain => s.congestionWindowGain == c.highCwndGain
    case ProbeBw => s.congestionWindowGain == c.windowGain
    case ProbeRtt => s.congestionWindowGain == c.highCwndGain || s.congestionWindowGain == c.windowGain
  }

  lemma BeforeGains(m: Bbr, c: Config, e: Event, rs: bool)
    requires c.highGain != 0.0 && GainInv(m, c)
    ensures GainInv(BeforeProbeRtt(m, c, e, rs), c)
  {
    hide Target, StartOffset, UpdateCycle, CheckFullBandwidth;
    CycleKeeps(m, c, e);
    CheckKeeps(if m.mode == ProbeBw then UpdateCycle(m, c, e) else m, c, e.report);
  }

  lemma ProbeGains(b: Bbr, c: Config, e: Event, rs: bool, old_: bool)
    requires GainInv(b, c)
    ensures GainInv(EnterOrExitProbeRtt(b, c, e, rs, old_), c)
  {
    hide StartOffset;
  }

  lemma EventKeepsGains(s: Bbr, c: Config, e: Event)
    requires c.highGain != 0.0 && GainInv(s, c)
    ensures GainInv(OnEvent(s, c, e), c)
  {
    hide Measured, Sized, BeforeProbeRtt, EnterOrExitProbeRtt, IsRoundStart, MinRttExpired;
    var m, rs, old_ := Measured(s, e), IsRoundStart(s, e), MinRttExpired(s, e.now, e.report);
    BeforeGains(m, c, e, rs);
    ProbeGains(BeforeProbeRtt(m, c, e, rs), c, e, rs, old_);
  }

  /** In every reachable state the gains are those of the mode: for the window, and for the
      pacing the high gain in STARTUP, its inverse in DRAIN, and in PROBE_BW one of 1.25, 0.75
      and 1. */
  lemma {:induction false} GainsOfRun(states: seq<Bbr>, c: Config, actions: seq<Action>, i: nat)
    requires c.Valid() && IsRun(states, c, actions) && i < |states|
    ensures GainInv(states[i], c)
    ensures states[i].mode == Startup ==> states[i].pacingGain == c.highGain
    ensures states[i].mode == Drain ==> states[i].pacingGain == 1.0 / c.highGain
    ensures states[i].mode == ProbeBw ==> states[i].pacingGain in {0.75, 1.0, 1.25}
    ensures states[i].mode == ProbeRtt ==> states[i].pacingGain == 1.0
  {
    hide OnEvent, Rescale, GetCongestionWindow, CanSend, WindowInv;
    WindowAlwaysInBounds(states, c, actions, i);
    if i > 0 {
      GainsOfRun(states, c, actions, i - 1);
      RunStep(states, c, actions, i - 1);
      match actions[i - 1]
      case Acked(e) => EventKeepsGains(states[i - 1], c, e);
      case _ =>
    }
  }

  // ----- The gain cycle

  /** More for one phase, less for the next, and six phases at the estimate. */
  function GainAt(offset: nat): real { if offset == 0 then 1.25 else if offset == 1 then 0.75 else 1.0 }

  /** The cycle moves on once a minimum RTT has passed; the high phase only when it has filled
      the pipe or lost packets, and the low one as soon as the queue is drained. */
  predicate Advances(s: Bbr, z: Bbr, e: Event, t: int, high: int) {
    if s.pacingGain < 1.0 && z.bytesInFlight <= t then true
    else if s.pacingGain > 1.0 && e.lost == [] && e.priorInFlight < high then false
    else e.now > s.lastCycleStart + Rtt(z, e.statsMinRtt)
  }

  lemma CycleIs(m: Bbr, c: Config, e: Event)
    requires m.cycleOffset < 8
    ensures var z, next := UpdateCycle(m, c, e), (m.cycleOffset + 1) % 8;
            var t := Target(m, e.statsMinRtt, 1.0);
            if Advances(m, m, e, t, Target(m, e.statsMinRtt, m.pacingGain)) then
              && z.cycleOffset == next && z.lastCycleStart == e.now
              && z.pacingGain == if c.drainToTarget && m.pacingGain < 1.0 && next >= 2 && m.bytesInFlight > t
                                 then m.pacingGain else GainAt(next)
            else z == m
  {
    hide Gained, BdpFromRttAndBandwidth;
  }

  lemma ProbeBwStays(m: Bbr, c: Config, e: Event, rs: bool, old_: bool)
    requires c.highGain != 0.0 && m.mode == ProbeBw && Moded(m, c, e, rs, old_).mode == ProbeBw
    ensures var z, u := Moded(m, c, e, rs, old_), UpdateCycle(m, c, e);
            z.cycleOffset == u.cycleOffset && z.pacingGain == u.pacingGain && z.lastCycleStart == u.lastCycleStart
  {
    hide UpdateCycle, CheckFullBandwidth, StartOffset, Target;
    CheckKeeps(UpdateCycle(m, c, e), c, e.report);
  }

  /** What an event does to the cycle in PROBE_BW. */
  lemma CycleAfterEvent(s: Bbr, c: Config, e: Event) returns (t: int, high: int)
    requires c.Valid() && s.initialCongestionWindow >= 0 && s.pacingGain >= 0.0 && s.cycleOffset < 8
    requires s.mode == ProbeBw && OnEvent(s, c, e).mode == ProbeBw
    ensures var z, next := OnEvent(s, c, e), (s.cycleOffset + 1) % 8;
            && IsTarget(t, z, e.statsMinRtt, 1.0) && IsTarget(high, z, e.statsMinRtt, s.pacingGain)
            && if Advances(s, z, e, t, high) then
                 && z.cycleOffset == next && z.lastCycleStart == e.now
                 && z.pacingGain == if c.drainToTarget && s.pacingGain < 1.0 && next >= 2 && z.bytesInFlight > t
                                    then s.pacingGain else GainAt(next)
               else
                 && z.cycleOffset == s.cycleOffset && z.lastCycleStart == s.lastCycleStart
                 && z.pacingGain == s.pacingGain
  {
    hide Measured, Moded, Sized, Target, IsTarget, UpdateCycle;
    var m, rs, old_ := Measured(s, e), IsRoundStart(s, e), MinRttExpired(s, e.now, e.report);
    var u, z := Moded(m, c, e, rs, old_), OnEvent(s, c, e);
    MeasuredIs(s, e);
    ProbeBwStays(m, c, e, rs, old_);
    CycleIs(m, c, e);
    t, high := Target(z, e.statsMinRtt, 1.0), Target(z, e.statsMinRtt, s.pacingGain);
    SameTarget(m, z, e.statsMinRtt, 1.0);
    SameTarget(m, z, e.statsMinRtt, s.pacingGain);
    TargetIs(z, e.statsMinRtt, 1.0);
    TargetIs(z, e.statsMinRtt, s.pacingGain);
  }

  /** A cycle has just been started. */
  predicate IsStart(z: Bbr, e: Event) {
    && z.lastCycleStart == e.now && z.cycleOffset == (if e.random % 7 == 0 then 0 else e.random % 7 + 1)
    && z.pacingGain == GainAt(z.cycleOffset)
  }

  lemma EnteringStarts(m: Bbr, c: Config, e: Event)
    ensures IsStart(EnterProbeBw(m, c, e.now, e.random), e)
  {
  }

  lemma BeforeStarts(m: Bbr, c: Config, e: Event, rs: bool)
    requires c.highGain != 0.0 && m.mode != ProbeBw && BeforeProbeRtt(m, c, e, rs).mode == ProbeBw
    ensures IsStart(BeforeProbeRtt(m, c, e, rs), e)
  {
    hide Target, CheckFullBandwidth, EnterProbeBw, IsStart;
    var s2 := if rs && !m.search.atFullBandwidth then CheckFullBandwidth(m, c, e.report) else m;
    var s3 := if s2.mode == Startup && s2.search.atFullBandwidth then
                s2.(mode := Drain, pacingGain := c.DrainGain(), congestionWindowGain := c.highCwndGain) else s2;
    EnteringStarts(s3, c, e);
  }

  lemma ProbeStarts(b: Bbr, c: Config, e: Event, rs: bool, old_: bool)
    requires EnterOrExitProbeRtt(b, c, e, rs, old_).mode == ProbeBw
    ensures b.mode == ProbeBw || IsStart(EnterOrExitProbeRtt(b, c, e, rs, old_), e)
    ensures b.mode == ProbeBw && IsStart(b, e) ==> IsStart(EnterOrExitProbeRtt(b, c, e, rs, old_), e)
  {
  }

  /** PROBE_BW starts a cycle at the time of the event, at any offset but 1, with its gain. */
  lemma CycleStarts(s: Bbr, c: Config, e: Event)
    requires c.Valid() && s.mode != ProbeBw && OnEvent(s, c, e).mode == ProbeBw
    ensures IsStart(OnEvent(s, c, e), e)
  {
    hide Measured, Sized, BeforeProbeRtt, EnterOrExitProbeRtt, IsRoundStart, MinRttExpired;
    MeasuredIs(s, e);
    var m, rs, old_ := Measured(s, e), IsRoundStart(s, e), MinRttExpired(s, e.now, e.report);
    var b := BeforeProbeRtt(m, c, e, rs);
    ProbeStarts(b, c, e, rs, old_);
    if b.mode == ProbeBw { BeforeStarts(m, c, e, rs); }
  }

  /** So each offset but 1 starts the cycle for one random number in seven. */
  lemma EveryOffsetStarts(offset: nat, random: nat)
    requires offset < 8 && offset != 1
    ensures StartOffset(random) == offset <==> random % 7 == if offset == 0 then 0 else offset - 1
  {
  }
}
