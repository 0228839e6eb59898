/** The BBR state machine as a value, step by step (internal/congestion/bbr/bbr_sender.go).
    Gains are reals; converting to an integer truncates. */
module BbrState {
  import opened Arithmetic
  import opened Wrappers
  import WF = WindowedFilter
  import SS = SamplerState
  import opened PacketQueue

  const SECOND := 1_000_000_000
  const MIN_BPS := 65536
  const INITIAL_WINDOW_PACKETS := 32
  const MIN_WINDOW_PACKETS := 4
  const PACING_GAIN: seq<real> := [1.25, 0.75, 1.0, 1.0, 1.0, 1.0, 1.0, 1.0]
  const GAIN_CYCLE_LENGTH := 8
  const BANDWIDTH_WINDOW := GAIN_CYCLE_LENGTH + 2
  const MIN_RTT_EXPIRY := 10 * SECOND
  const PROBE_RTT_TIME := 200_000_000
  const STARTUP_GROWTH_TARGET := 1.25
  const FULL_LOSS_COUNT := 8
  const LOSS_THRESHOLD := 0.02

  datatype Mode = Startup | Drain | ProbeBw | ProbeRtt

  datatype RecoveryState = NotInRecovery | Conservation | Growth

  /** A profile, and the constants of the QUIC library the sender is built with. */
  datatype Config = Config(highGain: real, highCwndGain: real, windowGain: real, numStartupRtts: nat,
                           drainToTarget: bool, detectOvershooting: bool, bytesLostMultiplier: nat,
                           ackAggregationInStartup: bool, expireAckAggregationInStartup: bool,
                           overestimateAvoidance: bool, reduceExtraAcked: bool,
                           maxWindowPackets: nat, maxPacketBufferSize: nat)
  {
    function DrainGain(): real requires highGain != 0.0 { 1.0 / highGain }

    ghost predicate Valid() {
      highGain > 1.0 && numStartupRtts > 0 && maxWindowPackets >= INITIAL_WINDOW_PACKETS
    }
  }

  datatype Profile = Conservative | Standard | Aggressive

  /** configForProfile; the last two constants come from the QUIC library. */
  function ConfigFor(p: Profile, maxWindowPackets: nat, maxPacketBufferSize: nat): (c: Config)
    ensures maxWindowPackets >= INITIAL_WINDOW_PACKETS ==> c.Valid()
  {
    var m, b := maxWindowPackets, maxPacketBufferSize;
    match p
    case Conservative => Config(2.25, 1.75, 1.75, 2, true, true, 1, false, false, true, true, m, b)
    case Standard => Config(2.885, 2.0, 2.0, 3, false, false, 2, false, false, false, false, m, b)
    case Aggressive => Config(3.0, 2.25, 2.5, 4, false, false, 2, true, true, false, false, m, b)
  }

  /** The search for the full bandwidth during STARTUP. */
  datatype Search = Search(atFullBandwidth: bool, roundsWithoutGain: nat, bandwidthAtLastRound: nat)

  datatype Bbr = Bbr(
    mode: Mode,
    roundTripCount: nat, lastSentPacket: int, currentRoundTripEnd: int,
    numLossEventsInRound: nat, bytesLostInRound: nat,
    maxBandwidth: WF.Estimates,
    minRtt: nat, minRttTimestamp: nat,
    congestionWindow: int, initialCongestionWindow: int, maxCongestionWindow: int, minCongestionWindow: int,
    pacingRate: nat, pacingGain: real, congestionWindowGain: real,
    cycleOffset: nat, lastCycleStart: nat,
    search: Search,
    exitingQuiescence: bool, exitProbeRttAt: nat, probeRttRoundPassed: bool,
    lastSampleIsAppLimited: bool, hasNoAppLimitedSample: bool,
    recoveryState: RecoveryState, endRecoveryAt: int, recoveryWindow: int,
    detectOvershooting: bool, bytesLostWhileDetectingOvershooting: nat, cwndToCalculateMinPacingRate: int,
    maxDatagramSize: int, bytesInFlight: int)

  /** What the sampler reports about one event. */
  datatype Report = Report(sampleMaxBandwidth: nat, sampleIsAppLimited: bool, sampleRtt: nat,
                           lastPacketSendState: Option<SS.SentState>, extraAcked: nat,
                           bytesAcked: nat, bytesLost: nat, totalBytesAcked: nat, maxAckHeight: nat)

  datatype AckedPacket = AckedPacket(number: int, bytes: nat)

  /** One call of OnCongestionEventEx, with the round-trip statistics and the random number
      of the moment. */
  datatype Event = Event(priorInFlight: int, now: nat, acked: seq<AckedPacket>, lost: seq<SS.Lost>,
                         report: Report, statsMinRtt: nat, random: nat)
  {
    ghost predicate Valid() { acked != [] || lost != [] }
  }

  // ----- What a step leaves alone

  ghost predicate KeepsLimits(s: Bbr, r: Bbr) {
    && r.maxDatagramSize == s.maxDatagramSize && r.minCongestionWindow == s.minCongestionWindow
    && r.maxCongestionWindow == s.maxCongestionWindow && r.initialCongestionWindow == s.initialCongestionWindow
  }

  ghost predicate KeepsLosses(s: Bbr, r: Bbr) {
    r.numLossEventsInRound == s.numLossEventsInRound && r.bytesLostInRound == s.bytesLostInRound
  }

  ghost predicate KeepsModes(s: Bbr, r: Bbr) {
    && r.mode == s.mode && r.pacingGain == s.pacingGain && r.congestionWindowGain == s.congestionWindowGain
    && r.cycleOffset == s.cycleOffset && r.search == s.search && r.lastCycleStart == s.lastCycleStart
  }

  ghost predicate KeepsWindows(s: Bbr, r: Bbr) {
    r.congestionWindow == s.congestionWindow && r.recoveryWindow == s.recoveryWindow &&
        r.recoveryState == s.recoveryState
  }

  ghost predicate KeepsRate(s: Bbr, r: Bbr) {
    && r.pacingRate == s.pacingRate && r.detectOvershooting == s.detectOvershooting
    && r.bytesLostWhileDetectingOvershooting == s.bytesLostWhileDetectingOvershooting
    && r.cwndToCalculateMinPacingRate == s.cwndToCalculateMinPacingRate
  }

  ghost predicate KeepsEstimates(s: Bbr, r: Bbr) {
    && r.maxBandwidth == s.maxBandwidth && r.minRtt == s.minRtt
    && r.lastSampleIsAppLimited == s.lastSampleIsAppLimited && r.hasNoAppLimitedSample == s.hasNoAppLimitedSample
  }

  ghost predicate KeepsRound(s: Bbr, r: Bbr) {
    && r.lastSentPacket == s.lastSentPacket && r.currentRoundTripEnd == s.currentRoundTripEnd
    && r.endRecoveryAt == s.endRecoveryAt && r.bytesInFlight == s.bytesInFlight
    && r.roundTripCount == s.roundTripCount
  }

  ghost predicate KeepsProbe(s: Bbr, r: Bbr) {
    && r.exitProbeRttAt == s.exitProbeRttAt && r.probeRttRoundPassed == s.probeRttRoundPassed
    && r.exitingQuiescence == s.exitingQuiescence
  }

  ghost predicate KeepsMinRtt(s: Bbr, r: Bbr) {
    r.minRtt == s.minRtt && r.minRttTimestamp == s.minRttTimestamp
  }

  // ----- Estimates and targets

  function Bandwidth(s: Bbr): nat { s.maxBandwidth.best.sample }

  function MinRtt(s: Bbr, statsMinRtt: nat): nat {
    if s.minRtt != 0 then s.minRtt else if statsMinRtt == 0 then 100_000_000 else statsMinRtt
  }

  /** bdpFromRttAndBandwidth: bytes, from nanoseconds and bit/s. */
  function BdpFromRttAndBandwidth(rtt: nat, bandwidth: nat): nat { rtt * bandwidth / 8 / SECOND }

  /** A gain times a number, converted back to an integer. */
  function Gained(gain: real, n: int): int { SS.Truncate(gain * n as real) }

  /** The congestion window for a gain: at least the minimum window. */
  function Target(s: Bbr, statsMinRtt: nat, gain: real): (r: int)
    ensures r >= s.minCongestionWindow
  {
    var w := Gained(gain, BdpFromRttAndBandwidth(MinRtt(s, statsMinRtt), Bandwidth(s)));
    Max(if w == 0 then Gained(gain, s.initialCongestionWindow) else w, s.minCongestionWindow)
  }

  // ----- The steps of an event

  function SumAcked(ps: seq<AckedPacket>): (n: nat) {
    if ps == [] then 0 else SumAcked(ps[..|ps| - 1]) + ps[|ps| - 1].bytes
  }

  function SumLost(ps: seq<SS.Lost>): (n: nat) {
    if ps == [] then 0 else SumLost(ps[..|ps| - 1]) + ps[|ps| - 1].bytes
  }

  /** The last packet acknowledged was sent after the round's end was fixed. */
  predicate PassesRound(s: Bbr, acked: seq<AckedPacket>) {
    && acked != []
    && (s.currentRoundTripEnd == INVALID_PACKET_NUMBER || acked[|acked| - 1].number > s.currentRoundTripEnd)
  }

  predicate IsRoundStart(s: Bbr, e: Event) { PassesRound(s, e.acked) }

  /** updateRoundTripCounter */
  function CountRound(s: Bbr, isRoundStart: bool): (r: Bbr)
    ensures KeepsLosses(s, r)
    ensures KeepsLimits(s, r) && KeepsEstimates(s, r) && KeepsModes(s, r) && KeepsWindows(s, r) && KeepsRate(s, r) &&
              KeepsMinRtt(s, r)
    ensures r.lastSentPacket == s.lastSentPacket && KeepsProbe(s, r)
    ensures r.endRecoveryAt == s.endRecoveryAt && r.bytesInFlight == s.bytesInFlight
    ensures r.currentRoundTripEnd == if isRoundStart then s.lastSentPacket else s.currentRoundTripEnd
    ensures r.roundTripCount == s.roundTripCount + if isRoundStart then 1 else 0
  {
    if isRoundStart then s.(roundTripCount := s.roundTripCount + 1, currentRoundTripEnd := s.lastSentPacket) else s
  }

  /** updateRecoveryState */
  function UpdateRecovery(s: Bbr, lastAcked: int, hasLosses: bool, isRoundStart: bool): (r: Bbr)
    ensures KeepsLosses(s, r)
    ensures KeepsLimits(s, r) && KeepsEstimates(s, r) && KeepsModes(s, r) && KeepsRate(s, r) && KeepsMinRtt(s, r) &&
              r.congestionWindow == s.congestionWindow
    ensures r.recoveryWindow == s.recoveryWindow || (r.recoveryWindow == 0 && r.recoveryState == Conservation)
    ensures r.lastSentPacket == s.lastSentPacket && KeepsProbe(s, r)
    ensures r.bytesInFlight == s.bytesInFlight
    ensures r.currentRoundTripEnd == s.currentRoundTripEnd || r.currentRoundTripEnd == s.lastSentPacket
    ensures r.roundTripCount == s.roundTripCount
    ensures s.search.atFullBandwidth && hasLosses ==>
              r.endRecoveryAt == s.lastSentPacket && r.recoveryState != NotInRecovery
    ensures s.search.atFullBandwidth && !hasLosses ==>
              && r.endRecoveryAt == s.endRecoveryAt
              && (r.recoveryState == NotInRecovery <==> s.recoveryState == NotInRecovery || lastAcked > s.endRecoveryAt)
  {
    if !s.search.atFullBandwidth then s
    else
      var s1 := if hasLosses then s.(endRecoveryAt := s.lastSentPacket) else s;
      if s1.recoveryState == NotInRecovery then
        if hasLosses then s1.(recoveryState := Conservation, recoveryWindow := 0,
            currentRoundTripEnd := s1.lastSentPacket)
        else s1
      else
        var s2 := if s1.recoveryState == Conservation && isRoundStart then s1.(recoveryState := Growth) else s1;
        if !hasLosses && lastAcked > s2.endRecoveryAt then s2.(recoveryState := NotInRecovery) else s2
  }

  /** What the sampler's report changes: the app-limited flags and the bandwidth filter. */
  function TakeReport(s: Bbr, rep: Report): (r: Bbr)
    ensures KeepsLosses(s, r)
    ensures KeepsLimits(s, r) && KeepsModes(s, r) && KeepsWindows(s, r) && KeepsRate(s, r) && KeepsMinRtt(s, r)
    ensures KeepsRound(s, r) && KeepsProbe(s, r)
  {
    var s1 := if rep.lastPacketSendState.Some? then
                var appLimited := rep.lastPacketSendState.value.isAppLimited;
                s.(lastSampleIsAppLimited := appLimited,
                   hasNoAppLimitedSample := s.hasNoAppLimitedSample || !appLimited)
              else s;
    if rep.bytesAcked != 0 && (!rep.sampleIsAppLimited || rep.sampleMaxBandwidth > Bandwidth(s)) then
      s1.(maxBandwidth := WF.Updated(s1.maxBandwidth, BANDWIDTH_WINDOW,
          WF.Estimate(rep.sampleMaxBandwidth, s1.roundTripCount)))
    else s1
  }

  predicate MinRttExpired(s: Bbr, now: nat, rep: Report) {
    rep.sampleRtt != SS.INF_RTT && s.minRtt != 0 && now > s.minRttTimestamp + MIN_RTT_EXPIRY
  }

  /** maybeUpdateMinRtt */
  function UpdateMinRtt(s: Bbr, now: nat, rep: Report): (r: Bbr)
    ensures KeepsLosses(s, r)
    ensures KeepsLimits(s, r) && r.maxBandwidth == s.maxBandwidth && KeepsModes(s, r) && KeepsWindows(s, r) &&
              KeepsRate(s, r)
    ensures KeepsRound(s, r) && KeepsProbe(s, r)
  {
    if rep.sampleRtt != SS.INF_RTT && (MinRttExpired(s, now, rep) || rep.sampleRtt < s.minRtt || s.minRtt == 0)
    then s.(minRtt := rep.sampleRtt, minRttTimestamp := now) else s
  }

  predicate AdvancesCycle(s: Bbr, e: Event) {
    if s.pacingGain < 1.0 && s.bytesInFlight <= Target(s, e.statsMinRtt, 1.0) then true
    else if s.pacingGain > 1.0 && e.lost == [] && e.priorInFlight < Target(s, e.statsMinRtt, s.pacingGain) then false
    else e.now > s.lastCycleStart + MinRtt(s, e.statsMinRtt)
  }

  /** updateGainCyclePhase */
  function UpdateCycle(s: Bbr, c: Config, e: Event): (r: Bbr)
    ensures KeepsLosses(s, r)
    ensures KeepsLimits(s, r) && KeepsEstimates(s, r) && KeepsWindows(s, r) && KeepsRate(s, r)
    ensures r.mode == s.mode && r.search == s.search
    ensures KeepsRound(s, r) && KeepsProbe(s, r)
  {
    if !AdvancesCycle(s, e) then s
    else
      var s1 := s.(cycleOffset := (s.cycleOffset + 1) % GAIN_CYCLE_LENGTH, lastCycleStart := e.now);
      if c.drainToTarget && s1.pacingGain < 1.0 && PACING_GAIN[s1.cycleOffset] == 1.0
         && s1.bytesInFlight > Target(s1, e.statsMinRtt, 1.0)
      then s1 else s1.(pacingGain := PACING_GAIN[s1.cycleOffset])
  }

  /** shouldExitStartupDueToLoss */
  predicate TooManyLosses(s: Bbr, rep: Report) {
    && s.numLossEventsInRound >= FULL_LOSS_COUNT
    && rep.lastPacketSendState.Some?
    && rep.lastPacketSendState.value.bytesInFlight > 0 && s.bytesLostInRound > 0
    && s.bytesLostInRound > SS.Truncate(rep.lastPacketSendState.value.bytesInFlight as real * LOSS_THRESHOLD)
  }

  /** One round's check whether the bandwidth still grows, for a sample that is not app-limited. */
  function CheckGrowth(g: Search, bandwidth: nat, tooManyLosses: bool, numStartupRtts: nat): (g': Search) {
    if bandwidth >= SS.Truncate(g.bandwidthAtLastRound as real * STARTUP_GROWTH_TARGET) then
      g.(bandwidthAtLastRound := bandwidth, roundsWithoutGain := 0)
    else
      var rounds := g.roundsWithoutGain + 1;
      g.(roundsWithoutGain := rounds, atFullBandwidth := g.atFullBandwidth || rounds >= numStartupRtts || tooManyLosses)
  }

  /** checkIfFullBandwidthReached */
  function CheckFullBandwidth(s: Bbr, c: Config, rep: Report): (r: Bbr)
    ensures KeepsLosses(s, r)
    ensures KeepsLimits(s, r) && KeepsEstimates(s, r) && KeepsWindows(s, r) && KeepsRate(s, r)
    ensures r.mode == s.mode && r.pacingGain == s.pacingGain && r.cycleOffset == s.cycleOffset
    ensures s.search.atFullBandwidth ==> r.search.atFullBandwidth
    ensures KeepsRound(s, r) && KeepsProbe(s, r)
  {
    if s.lastSampleIsAppLimited then s
    else s.(search := CheckGrowth(s.search, Bandwidth(s), TooManyLosses(s, rep), c.numStartupRtts))
  }

  /** The offset a gain cycle starts at: any but 1. */
  function StartOffset(random: nat): (o: nat)
    ensures o < GAIN_CYCLE_LENGTH && o != 1
  {
    var o := random % (GAIN_CYCLE_LENGTH - 1);
    if o >= 1 then o + 1 else o
  }

  /** enterProbeBandwidthMode */
  function EnterProbeBw(s: Bbr, c: Config, now: nat, random: nat): (r: Bbr)
    ensures KeepsLosses(s, r)
    ensures KeepsLimits(s, r) && KeepsEstimates(s, r) && KeepsWindows(s, r) && KeepsRate(s, r) && r.search == s.search
    ensures KeepsRound(s, r) && KeepsProbe(s, r)
    ensures r.mode == ProbeBw && r.cycleOffset < GAIN_CYCLE_LENGTH && r.cycleOffset != 1 &&
              r.pacingGain == PACING_GAIN[r.cycleOffset]
  {
    s.(mode := ProbeBw, congestionWindowGain := c.windowGain, cycleOffset := StartOffset(random),
       lastCycleStart := now, pacingGain := PACING_GAIN[StartOffset(random)])
  }

  /** enterStartupMode */
  function EnterStartup(s: Bbr, c: Config): (r: Bbr)
    ensures KeepsLosses(s, r)
    ensures KeepsLimits(s, r) && KeepsEstimates(s, r) && KeepsWindows(s, r) && KeepsRate(s, r) && r.search == s.search
    ensures KeepsRound(s, r) && KeepsProbe(s, r)
  {
    s.(mode := Startup, pacingGain := c.highGain, congestionWindowGain := c.highCwndGain)
  }

  /** maybeExitStartupOrDrain */
  function ExitStartupOrDrain(s: Bbr, c: Config, e: Event): (r: Bbr)
    requires c.highGain != 0.0
    ensures KeepsLosses(s, r)
    ensures KeepsLimits(s, r) && KeepsEstimates(s, r) && KeepsWindows(s, r) && KeepsRate(s, r) && r.search == s.search
    ensures KeepsRound(s, r) && KeepsProbe(s, r)
  {
    var s1 := if s.mode == Startup && s.search.atFullBandwidth then
                s.(mode := Drain, pacingGain := c.DrainGain(), congestionWindowGain := c.highCwndGain) else s;
    if s1.mode == Drain && s1.bytesInFlight <= Target(s1, e.statsMinRtt, 1.0)
        then EnterProbeBw(s1, c, e.now, e.random) else s1
  }

  function EnteredProbeRtt(s: Bbr, minRttExpired: bool): (r: Bbr)
    ensures KeepsLosses(s, r)
    ensures KeepsLimits(s, r) && KeepsEstimates(s, r) && KeepsWindows(s, r) && KeepsRate(s, r) && r.search == s.search
    ensures KeepsRound(s, r)
  {
    if minRttExpired && !s.exitingQuiescence && s.mode != ProbeRtt then
      s.(mode := ProbeRtt, pacingGain := 1.0, exitProbeRttAt := 0)
    else s
  }

  /** maybeEnterOrExitProbeRtt */
  function EnterOrExitProbeRtt(s: Bbr, c: Config, e: Event, isRoundStart: bool, minRttExpired: bool): (r: Bbr)
    ensures KeepsLosses(s, r)
    ensures KeepsLimits(s, r) && KeepsEstimates(s, r) && KeepsWindows(s, r) && KeepsRate(s, r) && r.search == s.search
    ensures KeepsRound(s, r)
  {
    var s1 := EnteredProbeRtt(s, minRttExpired);
    var s2 := if s1.mode == ProbeRtt then InProbeRtt(s1, c, e, isRoundStart) else s1;
    s2.(exitingQuiescence := false)
  }

  function InProbeRtt(s: Bbr, c: Config, e: Event, isRoundStart: bool): (r: Bbr)
    ensures KeepsLosses(s, r)
    ensures KeepsLimits(s, r) && KeepsEstimates(s, r) && KeepsWindows(s, r) && KeepsRate(s, r) && r.search == s.search
    ensures KeepsRound(s, r)
  {
    if s.exitProbeRttAt == 0 then
      if s.bytesInFlight < s.minCongestionWindow + c.maxPacketBufferSize then
        s.(exitProbeRttAt := e.now + PROBE_RTT_TIME, probeRttRoundPassed := false)
      else s
    else
      var s1 := if isRoundStart then s.(probeRttRoundPassed := true) else s;
      if e.now >= s1.exitProbeRttAt && s1.probeRttRoundPassed then
        var s2 := s1.(minRttTimestamp := e.now);
        if !s2.search.atFullBandwidth then EnterStartup(s2, c) else EnterProbeBw(s2, c, e.now, e.random)
      else s1
  }

  /** The rate the pacing gain asks for. */
  function TargetRate(s: Bbr): nat { Max(0, Gained(s.pacingGain, Bandwidth(s))) }

  /** calculatePacingRate */
  function UpdatePacingRate(s: Bbr, c: Config, bytesLost: nat, statsMinRtt: nat): (r: Bbr)
    ensures KeepsLosses(s, r)
    ensures KeepsLimits(s, r) && KeepsEstimates(s, r) && KeepsModes(s, r) && KeepsWindows(s, r)
    ensures KeepsRound(s, r) && KeepsProbe(s, r) && KeepsMinRtt(s, r)
  {
    if Bandwidth(s) == 0 then s
    else
      var target := TargetRate(s);
      if s.search.atFullBandwidth then s.(pacingRate := target)
      else if s.pacingRate == 0 && statsMinRtt != 0 then
        s.(pacingRate := SS.BandwidthFromDelta(Max(0, s.initialCongestionWindow), statsMinRtt))
      else
        var s1 := if s.detectOvershooting then CheckOvershoot(s, c, target, bytesLost, statsMinRtt) else s;
        s1.(pacingRate := Max(s1.pacingRate, target))
  }

  /** The losses since overshooting is watched for are enough to slow the pacing down. */
  predicate Overshoots(s: Bbr, c: Config, target: nat, lost: nat) {
    && s.pacingRate > target && lost > 0
    && (s.hasNoAppLimitedSample || lost * c.bytesLostMultiplier > s.initialCongestionWindow)
  }

  /** While overshooting is watched for: losses count, and enough of them slow the pacing down once. */
  function CheckOvershoot(s: Bbr, c: Config, target: nat, bytesLost: nat, statsMinRtt: nat): (r: Bbr)
    ensures KeepsLosses(s, r)
    ensures KeepsLimits(s, r) && KeepsEstimates(s, r) && KeepsModes(s, r) && KeepsWindows(s, r)
    ensures KeepsRound(s, r) && KeepsProbe(s, r) && KeepsMinRtt(s, r)
  {
    var lost := s.bytesLostWhileDetectingOvershooting + bytesLost;
    var s1 := s.(bytesLostWhileDetectingOvershooting := lost);
    if Overshoots(s1, c, target, lost) then
      s1.(pacingRate := if statsMinRtt == 0 then target
                        else Max(target, SS.BandwidthFromDelta(Max(0, s1.cwndToCalculateMinPacingRate), statsMinRtt)),
          bytesLostWhileDetectingOvershooting := 0, detectOvershooting := false)
    else s1
  }

  /** The congestion window after an event outside PROBE_RTT. */
  function NextCongestionWindow(s: Bbr, c: Config, rep: Report, statsMinRtt: nat): (w: int) {
    var allowance := if s.search.atFullBandwidth then rep.maxAckHeight
                     else if c.ackAggregationInStartup then rep.extraAcked else 0;
    var target := Target(s, statsMinRtt, s.congestionWindowGain) + allowance;
    var w := if s.search.atFullBandwidth then Min(target, s.congestionWindow + rep.bytesAcked)
             else if s.congestionWindow < target || rep.totalBytesAcked < s.initialCongestionWindow then
               s.congestionWindow + rep.bytesAcked
             else s.congestionWindow;
    Min(Max(w, s.minCongestionWindow), s.maxCongestionWindow)
  }

  /** calculateCongestionWindow */
  function UpdateWindow(s: Bbr, c: Config, rep: Report, statsMinRtt: nat): (r: Bbr)
    ensures KeepsLosses(s, r)
    ensures KeepsLimits(s, r) && KeepsEstimates(s, r) && KeepsModes(s, r) && KeepsRate(s, r)
    ensures r.recoveryWindow == s.recoveryWindow && r.recoveryState == s.recoveryState
    ensures KeepsRound(s, r) && KeepsProbe(s, r) && KeepsMinRtt(s, r)
  {
    if s.mode == ProbeRtt then s else s.(congestionWindow := NextCongestionWindow(s, c, rep, statsMinRtt))
  }

  /** The recovery window after an event in recovery. */
  function NextRecoveryWindow(s: Bbr, rep: Report): (w: int)
    ensures w >= s.minCongestionWindow && w >= s.bytesInFlight + rep.bytesAcked
  {
    if s.recoveryWindow == 0 then Max(s.minCongestionWindow, s.bytesInFlight + rep.bytesAcked)
    else
      var w1 := if s.recoveryWindow >= rep.bytesLost then s.recoveryWindow - rep.bytesLost else s.maxDatagramSize;
      var w2 := if s.recoveryState == Growth then w1 + rep.bytesAcked else w1;
      Max(s.minCongestionWindow, Max(w2, s.bytesInFlight + rep.bytesAcked))
  }

  /** calculateRecoveryWindow */
  function UpdateRecoveryWindow(s: Bbr, rep: Report): (r: Bbr)
    ensures KeepsLosses(s, r)
    ensures KeepsLimits(s, r) && KeepsEstimates(s, r) && KeepsModes(s, r) && KeepsRate(s, r)
    ensures r.congestionWindow == s.congestionWindow && r.recoveryState == s.recoveryState
    ensures KeepsRound(s, r) && KeepsProbe(s, r) && KeepsMinRtt(s, r)
  {
    if s.recoveryState == NotInRecovery then s else s.(recoveryWindow := NextRecoveryWindow(s, rep))
  }

  // ----- A whole event

  /** Bytes in flight, round and recovery state. */
  function Acknowledged(s: Bbr, e: Event): (r: Bbr)
    ensures KeepsLosses(s, r)
    ensures KeepsLimits(s, r) && KeepsEstimates(s, r) && KeepsModes(s, r) && KeepsRate(s, r) && KeepsMinRtt(s, r) &&
              r.congestionWindow == s.congestionWindow
    ensures r.recoveryWindow == s.recoveryWindow || (r.recoveryWindow == 0 && r.recoveryState == Conservation)
    ensures r.lastSentPacket == s.lastSentPacket && KeepsProbe(s, r)
  {
    var s1 := s.(bytesInFlight := e.priorInFlight - SumAcked(e.acked) - SumLost(e.lost));
    if e.acked != [] then
      UpdateRecovery(CountRound(s1, IsRoundStart(s1, e)), e.acked[|e.acked| - 1].number, e.lost != [],
          IsRoundStart(s1, e))
    else s1
  }

  /** The counters of losses in this round. */
  function CountLosses(s: Bbr, e: Event): (r: Bbr)
    ensures KeepsLimits(s, r) && KeepsEstimates(s, r) && KeepsModes(s, r) && KeepsWindows(s, r) && KeepsRate(s, r)
    ensures KeepsRound(s, r) && KeepsProbe(s, r)
  {
    if e.lost != [] then
      s.(numLossEventsInRound := s.numLossEventsInRound + 1,
          bytesLostInRound := s.bytesLostInRound + e.report.bytesLost)
    else s
  }

  /** Everything an event measures, before the mode transitions. */
  function Measured(s: Bbr, e: Event): (r: Bbr)
    ensures KeepsLimits(s, r) && KeepsModes(s, r) && KeepsRate(s, r) && r.congestionWindow == s.congestionWindow
    ensures r.recoveryWindow == s.recoveryWindow || (r.recoveryWindow == 0 && r.recoveryState == Conservation)
    ensures r.lastSentPacket == s.lastSentPacket && KeepsProbe(s, r)
  {
    CountLosses(UpdateMinRtt(TakeReport(Acknowledged(s, e), e.report), e.now, e.report), e)
  }

  /** The mode transitions of an event up to those of PROBE_RTT. */
  function BeforeProbeRtt(s: Bbr, c: Config, e: Event, isRoundStart: bool): (r: Bbr)
    requires c.highGain != 0.0
    ensures KeepsLosses(s, r)
    ensures KeepsLimits(s, r) && KeepsEstimates(s, r) && KeepsWindows(s, r) && KeepsRate(s, r)
    ensures s.search.atFullBandwidth ==> r.search.atFullBandwidth
    ensures KeepsRound(s, r) && KeepsProbe(s, r)
  {
    var s1 := if s.mode == ProbeBw then UpdateCycle(s, c, e) else s;
    var s2 := if isRoundStart && !s1.search.atFullBandwidth then CheckFullBandwidth(s1, c, e.report) else s1;
    ExitStartupOrDrain(s2, c, e)
  }

  /** The mode transitions of an event. */
  function Moded(s: Bbr, c: Config, e: Event, isRoundStart: bool, minRttExpired: bool): (r: Bbr)
    requires c.highGain != 0.0
    ensures KeepsLosses(s, r)
    ensures KeepsLimits(s, r) && KeepsEstimates(s, r) && KeepsWindows(s, r) && KeepsRate(s, r)
    ensures s.search.atFullBandwidth ==> r.search.atFullBandwidth
    ensures KeepsRound(s, r)
  {
    EnterOrExitProbeRtt(BeforeProbeRtt(s, c, e, isRoundStart), c, e, isRoundStart, minRttExpired)
  }

  /** Rate and windows. */
  function Sized(s: Bbr, c: Config, e: Event, isRoundStart: bool): (r: Bbr)
    ensures KeepsLimits(s, r) && KeepsEstimates(s, r) && KeepsModes(s, r) && r.recoveryState == s.recoveryState
    ensures KeepsRound(s, r) && KeepsProbe(s, r) && KeepsMinRtt(s, r)
  {
    var paced := UpdatePacingRate(s, c, e.report.bytesLost, e.statsMinRtt);
    var s1 := UpdateRecoveryWindow(UpdateWindow(paced, c, e.report, e.statsMinRtt), e.report);
    if isRoundStart then s1.(numLossEventsInRound := 0, bytesLostInRound := 0) else s1
  }

  /** OnCongestionEventEx */
  function OnEvent(s: Bbr, c: Config, e: Event): Bbr
    requires c.highGain != 0.0
  {
    var m := Measured(s, e);
    Sized(Moded(m, c, e, IsRoundStart(s, e), MinRttExpired(s, e.now, e.report)), c, e, IsRoundStart(s, e))
  }

  // ----- The other operations

  function OnPacketSent(s: Bbr, bytesInFlight: int, packetNumber: int): Bbr {
    s.(lastSentPacket := packetNumber, bytesInFlight := bytesInFlight,
       exitingQuiescence := s.exitingQuiescence || bytesInFlight == 0)
  }

  /** scaleByteWindowForDatagramSize */
  function Rescale(window: int, from: int, to: int): int
    requires from > 0
  {
    if from == to then window else window * to / from
  }

  /** SetMaxDatagramSize */
  function Resized(s: Bbr, size: int): Bbr
    requires s.maxDatagramSize > 0
  {
    var s1 := s.(maxDatagramSize := size,
                 initialCongestionWindow := Rescale(s.initialCongestionWindow, s.maxDatagramSize, size),
                 maxCongestionWindow := Rescale(s.maxCongestionWindow, s.maxDatagramSize, size),
                 minCongestionWindow := MIN_WINDOW_PACKETS * size,
                 cwndToCalculateMinPacingRate := Rescale(s.cwndToCalculateMinPacingRate, s.maxDatagramSize, size));
    var w := if s.congestionWindow == s.minCongestionWindow then s1.minCongestionWindow
             else if s.congestionWindow == s.initialCongestionWindow then s1.initialCongestionWindow
             else Min(s1.maxCongestionWindow, Max(s.congestionWindow, s1.minCongestionWindow));
    s1.(congestionWindow := w,
        recoveryWindow := Min(s1.maxCongestionWindow, Max(s.recoveryWindow, s1.minCongestionWindow)))
  }

  function GetCongestionWindow(s: Bbr): int {
    if s.mode == ProbeRtt then s.minCongestionWindow
    else if s.recoveryState != NotInRecovery then Min(s.congestionWindow, s.recoveryWindow)
    else s.congestionWindow
  }

  predicate CanSend(s: Bbr, bytesInFlight: int) { bytesInFlight < GetCongestionWindow(s) }

  /** PacingRate */
  function PacingRate(s: Bbr, c: Config, statsMinRtt: nat): int {
    if s.pacingRate == 0 then
      Gained(c.highGain, SS.BandwidthFromDelta(Max(0, s.initialCongestionWindow), MinRtt(s, statsMinRtt)))
    else s.pacingRate
  }

  /** bandwidthForPacer: never less than the floor, so the pacer never divides by zero. */
  function BandwidthForPacer(s: Bbr, c: Config, statsMinRtt: nat): (r: nat)
    ensures r >= MIN_BPS
  {
    Max(SS.Truncate(PacingRate(s, c, statsMinRtt) as real / 8.0), MIN_BPS)
  }

  /** The fields newBbrSender sets; only the conservative profile watches for overshooting. */
  function Unstarted(c: Config, size: int): Bbr {
    Bbr(Startup, 0, INVALID_PACKET_NUMBER, INVALID_PACKET_NUMBER, 0, 0, WF.NO_ESTIMATES, 0, 0,
        INITIAL_WINDOW_PACKETS * size, INITIAL_WINDOW_PACKETS * size,
        c.maxWindowPackets * size, MIN_WINDOW_PACKETS * size,
        0, 1.0, 1.0, 0, 0, Search(false, 0, 0), false, 0, false, false, false,
        NotInRecovery, INVALID_PACKET_NUMBER, c.maxWindowPackets * size,
        c.detectOvershooting, 0, INITIAL_WINDOW_PACKETS * size, size, 0)
  }

  /** NewBbrSender */
  function Initial(c: Config, size: int): Bbr { EnterStartup(Unstarted(c, size), c) }
}
