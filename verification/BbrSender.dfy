/** The BBR sender, updating its fields, its sampler and its pacer in place
    (internal/congestion/bbr/bbr_sender.go). The plain fields are gathered in one record,
    and a field is assigned with `b := b.(field := value)`. */
module BbrSender {
  import opened Arithmetic
  import WF = WindowedFilter
  import P = Pacer
  import SS = SamplerState
  import RB = RingBuffer
  import Sampler
  import opened PacketQueue
  import opened BbrState
  import opened BbrProofs
  import opened BbrRuns
  import opened BbrWhole

  /** The sampler of a sender, as its profile sets it up. */
  method NewSampler(config: Config) returns (sampler: Sampler.BandwidthSampler)
    ensures fresh(sampler) && fresh(sampler.Repr()) && sampler.Valid()
    ensures sampler.View() == StartSampler(config)
  {
    hide SS.NewState, SS.Step, SS.State.Inv, PresentCount, Queue.AsMap, Queue.Valid, Queue.Has, RB.Unrolled;
    sampler := new Sampler.BandwidthSampler(0, 0, BANDWIDTH_WINDOW);
    if config.overestimateAvoidance {
      sampler.EnableOverestimateAvoidance();
    }
    sampler.SetReduceExtraAcked(config.reduceExtraAcked);
  }

  class BbrSender {
    const config: Config
    const pacer: P.Pacer
    const sampler: Sampler.BandwidthSampler
    var b: Bbr
    /** The time of the last operation. */
    ghost var clock: nat

    ghost function View(): Whole
      reads this, pacer, sampler, sampler.Repr(), sampler.connectionStateMap.entries, sampler.a0Candidates
      requires sampler.Valid()
    {
      Whole(b, sampler.View(), pacer.View(), clock)
    }

    /** What holds between calls: the limits are multiples of the datagram size, the windows
        keep to them, mode, gain and full-bandwidth flag go together, and the sampler and the
        pacer are in order. */
    ghost predicate Valid()
      reads this, pacer, sampler, sampler.Repr(), sampler.connectionStateMap.entries, sampler.a0Candidates
    {
      config.Valid() && sampler.Valid() && WholeInv(View(), config)
    }

    /** What also holds while an event is being handled. */
    ghost predicate Usable()
      reads this
    {
      config.Valid() && b.maxDatagramSize > 0 && b.cycleOffset < GAIN_CYCLE_LENGTH
    }

    constructor (config: Config, initialMaxDatagramSize: int, pacerSize: nat, minPacingDelay: nat)
      requires config.Valid() && initialMaxDatagramSize > 0
      ensures Valid() && this.config == config && fresh(pacer) && fresh(sampler) && fresh(sampler.Repr())
      ensures View() == NewWhole(config, initialMaxDatagramSize, pacerSize, minPacingDelay)
      ensures b.mode == Startup && GetCongestionWindow(b) == INITIAL_WINDOW_PACKETS * initialMaxDatagramSize &&
                CanSend(b, 0)
    {
      hide Inv, WholeInv, NewWhole, EnterStartup, Unstarted, GetCongestionWindow, CanSend, StartSampler, SS.State.Inv,
           PresentCount, Queue.AsMap, Queue.Valid, Queue.Has, RB.Unrolled;
      UnstartedIsUsable(config, initialMaxDatagramSize);
      NewIsOk(config, initialMaxDatagramSize, pacerSize, minPacingDelay);
      NewIs(config, initialMaxDatagramSize, pacerSize, minPacingDelay);
      InitialCanSend(config, initialMaxDatagramSize);
      this.config := config;
      pacer := new P.Pacer(pacerSize, minPacingDelay);
      var started := NewSampler(config);
      sampler := started;
      b := Unstarted(config, initialMaxDatagramSize);
      clock := 0;
      new;
      EnterStartupMode();
    }

    method UpdateRecoveryState(lastAckedPacket: int, hasLosses: bool, isRoundStart: bool)
      requires Usable()
      modifies `b
      ensures Usable() && b == UpdateRecovery(old(b), lastAckedPacket, hasLosses, isRoundStart)
      ensures b.recoveryWindow == old(b.recoveryWindow) || (b.recoveryWindow == 0 && b.recoveryState == Conservation)
      ensures old(b.search.atFullBandwidth) && hasLosses ==>
                b.recoveryState != NotInRecovery && b.endRecoveryAt == b.lastSentPacket
    {
      if !b.search.atFullBandwidth {
        return;
      }
      var end := b.endRecoveryAt;
      if hasLosses {
        end := b.lastSentPacket;
      }
      if b.recoveryState == NotInRecovery {
        if hasLosses {
          b := b.(endRecoveryAt := end, recoveryState := Conservation, recoveryWindow := 0,
                  currentRoundTripEnd := b.lastSentPacket);
        }
        return;
      }
      var state := b.recoveryState;
      if state == Conservation && isRoundStart {
        state := Growth;
      }
      if !hasLosses && lastAckedPacket > end {
        state := NotInRecovery;
      }
      b := b.(endRecoveryAt := end, recoveryState := state);
    }

    method UpdateRoundTripCounter(lastAckedPacket: int) returns (isRoundStart: bool)
      requires Usable()
      modifies `b
      ensures Usable()
      ensures isRoundStart ==
                (old(b.currentRoundTripEnd) == INVALID_PACKET_NUMBER || lastAckedPacket > old(b.currentRoundTripEnd))
      ensures b == CountRound(old(b), isRoundStart)
    {
      if b.currentRoundTripEnd == INVALID_PACKET_NUMBER || lastAckedPacket > b.currentRoundTripEnd {
        b := b.(roundTripCount := b.roundTripCount + 1);
        b := b.(currentRoundTripEnd := b.lastSentPacket);
        return true;
      }
      return false;
    }

    method TakeSample(report: Report)
      requires Usable()
      modifies `b
      ensures Usable() && b == TakeReport(old(b), report)
    {
      hide WF.Updated;
      if report.lastPacketSendState.Some? {
        b := b.(lastSampleIsAppLimited := report.lastPacketSendState.value.isAppLimited);
        b := b.(hasNoAppLimitedSample := b.hasNoAppLimitedSample || !b.lastSampleIsAppLimited);
      }
      if report.bytesAcked != 0 && (!report.sampleIsAppLimited || report.sampleMaxBandwidth > Bandwidth(b)) {
        b := b.(maxBandwidth := WF.Updated(b.maxBandwidth, BANDWIDTH_WINDOW,
            WF.Estimate(report.sampleMaxBandwidth, b.roundTripCount)));
      }
    }

    method MaybeUpdateMinRtt(now: nat, sampleMinRtt: nat) returns (minRttExpired: bool)
      requires Usable()
      modifies `b
      ensures Usable()
      ensures minRttExpired == (old(b.minRtt) != 0 && now > old(b.minRttTimestamp) + MIN_RTT_EXPIRY)
      ensures forall rep: Report :: rep.sampleRtt == sampleMinRtt && sampleMinRtt != SS.INF_RTT ==>
                b == UpdateMinRtt(old(b), now, rep)
    {
      minRttExpired := b.minRtt != 0 && now > b.minRttTimestamp + MIN_RTT_EXPIRY;
      if minRttExpired || sampleMinRtt < b.minRtt || b.minRtt == 0 {
        b := b.(minRtt := sampleMinRtt);
        b := b.(minRttTimestamp := now);
      }
    }

    method UpdateGainCyclePhase(e: Event)
      requires Usable()
      modifies `b
      ensures Usable() && b == UpdateCycle(old(b), config, e)
    {
      hide Target;
      var shouldAdvanceGainCycling := e.now > b.lastCycleStart + MinRtt(b, e.statsMinRtt);
      if b.pacingGain > 1.0 && |e.lost| == 0 && e.priorInFlight < Target(b, e.statsMinRtt, b.pacingGain) {
        shouldAdvanceGainCycling := false;
      }
      if b.pacingGain < 1.0 && b.bytesInFlight <= Target(b, e.statsMinRtt, 1.0) {
        shouldAdvanceGainCycling := true;
      }
      if shouldAdvanceGainCycling {
        b := b.(cycleOffset := (b.cycleOffset + 1) % GAIN_CYCLE_LENGTH, lastCycleStart := e.now);
        if config.drainToTarget && b.pacingGain < 1.0 && PACING_GAIN[b.cycleOffset] == 1.0
           && b.bytesInFlight > Target(b, e.statsMinRtt, 1.0) {
          return;
        }
        b := b.(pacingGain := PACING_GAIN[b.cycleOffset]);
      }
    }

    /** The comparison of checkIfFullBandwidthReached; says whether the bandwidth has risen. */
    method CheckGrowing(report: Report) returns (grows: bool)
      requires Usable() && !b.lastSampleIsAppLimited
      modifies `b
      ensures Usable() && b == CheckFullBandwidth(old(b), config, report)
      ensures grows == !Stalls(Bandwidth(old(b)), old(b).search.bandwidthAtLastRound)
    {
      hide SS.Truncate;
      var target := SS.Truncate(b.search.bandwidthAtLastRound as real * STARTUP_GROWTH_TARGET);
      if Bandwidth(b) >= target {
        b := b.(search := b.search.(bandwidthAtLastRound := Bandwidth(b)));
        b := b.(search := b.search.(roundsWithoutGain := 0));
        return true;
      }
      var tooManyLosses := TooManyLosses(b, report);
      b := b.(search := b.search.(roundsWithoutGain := b.search.roundsWithoutGain + 1));
      if b.search.roundsWithoutGain >= config.numStartupRtts || tooManyLosses {
        b := b.(search := b.search.(atFullBandwidth := true));
      }
      return false;
    }

    method CheckIfFullBandwidthReached(report: Report)
      requires Usable() && sampler.Valid()
      modifies `b, sampler.Repr()
      ensures Usable() && b == CheckFullBandwidth(old(b), config, report)
      ensures sampler.Valid() && sampler.Repr() == old(sampler.Repr())
      ensures sampler.View() == if CheckResets(old(b), config)
                                then SS.Step(old(sampler.View()), SS.ResetHeights(0, old(b).roundTripCount))
                                else old(sampler.View())
    {
      hide CheckGrowth, Stalls, SS.State.Inv, PresentCount, Queue.AsMap, Queue.Valid, Queue.Has, RB.Unrolled;
      if b.lastSampleIsAppLimited {
        return;
      }
      var grows := CheckGrowing(report);
      if grows && config.expireAckAggregationInStartup {
        sampler.ResetMaxAckHeightTracker(0, b.roundTripCount);
      }
    }

    method EnterProbeBandwidthMode(now: nat, random: nat)
      requires Usable()
      modifies `b
      ensures Usable() && b == EnterProbeBw(old(b), config, now, random)
      ensures b.mode == ProbeBw && b.cycleOffset != 1 && b.pacingGain == PACING_GAIN[b.cycleOffset]
    {
      var offset := random % (GAIN_CYCLE_LENGTH - 1);
      if offset >= 1 {
        offset := offset + 1;
      }
      b := b.(mode := ProbeBw, congestionWindowGain := config.windowGain, cycleOffset := offset,
              lastCycleStart := now, pacingGain := PACING_GAIN[offset]);
    }

    method EnterStartupMode()
      requires Usable()
      modifies `b
      ensures Usable() && b == EnterStartup(old(b), config)
    {
      b := b.(mode := Startup);
      b := b.(pacingGain := config.highGain);
      b := b.(congestionWindowGain := config.highCwndGain);
    }

    method MaybeExitStartupOrDrain(e: Event)
      requires Usable()
      modifies `b
      ensures Usable() && b == ExitStartupOrDrain(old(b), config, e)
      ensures b.mode == old(b.mode) || old(b.mode) == Startup || (old(b.mode) == Drain && b.mode == ProbeBw)
    {
      hide Target, EnterProbeBw;
      if b.mode == Startup && b.search.atFullBandwidth {
        b := b.(mode := Drain, pacingGain := config.DrainGain(), congestionWindowGain := config.highCwndGain);
      }
      if b.mode == Drain && b.bytesInFlight <= Target(b, e.statsMinRtt, 1.0) {
        EnterProbeBandwidthMode(e.now, e.random);
      }
    }

    method AdvanceProbeRtt(e: Event, isRoundStart: bool)
      requires Usable()
      modifies `b
      ensures Usable() && b == InProbeRtt(old(b), config, e, isRoundStart)
    {
      hide EnterProbeBw, EnterStartup;
      if b.exitProbeRttAt == 0 {
        if b.bytesInFlight < b.minCongestionWindow + config.maxPacketBufferSize {
          b := b.(exitProbeRttAt := e.now + PROBE_RTT_TIME);
          b := b.(probeRttRoundPassed := false);
        }
      } else {
        if isRoundStart {
          b := b.(probeRttRoundPassed := true);
        }
        if e.now >= b.exitProbeRttAt && b.probeRttRoundPassed {
          b := b.(minRttTimestamp := e.now);
          if !b.search.atFullBandwidth {
            EnterStartupMode();
          } else {
            EnterProbeBandwidthMode(e.now, e.random);
          }
        }
      }
    }

    /** Enters PROBE_RTT when the minimum RTT has expired, except after a quiet phase. */
    method MaybeEnterProbeRtt(minRttExpired: bool)
      requires Usable()
      modifies `b
      ensures Usable() && b == EnteredProbeRtt(old(b), minRttExpired)
    {
      if minRttExpired && !b.exitingQuiescence && b.mode != ProbeRtt {
        b := b.(mode := ProbeRtt, pacingGain := 1.0, exitProbeRttAt := 0);
      }
    }

    /** In PROBE_RTT the application counts as limited. */
    method LimitInProbeRtt()
      requires sampler.Valid()
      modifies sampler
      ensures sampler.Valid() && sampler.Repr() == old(sampler.Repr())
      ensures sampler.View() == if b.mode == ProbeRtt then SS.Step(old(sampler.View()), SS.AppLimit)
                                else old(sampler.View())
      ensures sampler.totalBytesAcked == old(sampler.totalBytesAcked)
    {
      hide SS.State.Inv, PresentCount, Queue.AsMap, Queue.Valid, Queue.Has, RB.Unrolled;
      if b.mode == ProbeRtt {
        sampler.OnAppLimited();
      }
    }

    method MaybeEnterOrExitProbeRtt(e: Event, isRoundStart: bool, minRttExpired: bool)
      requires Usable() && sampler.Valid()
      modifies `b, sampler
      ensures Usable() && b == EnterOrExitProbeRtt(old(b), config, e, isRoundStart, minRttExpired)
      ensures sampler.Valid() && sampler.Repr() == old(sampler.Repr())
      ensures sampler.View() == if EnteredProbeRtt(old(b), minRttExpired).mode == ProbeRtt
                                then SS.Step(old(sampler.View()), SS.AppLimit) else old(sampler.View())
    {
      hide InProbeRtt, EnteredProbeRtt, SS.State.Inv, PresentCount, Queue.AsMap, Queue.Valid, Queue.Has, RB.Unrolled;
      MaybeEnterProbeRtt(minRttExpired);
      LimitInProbeRtt();
      if b.mode == ProbeRtt {
        AdvanceProbeRtt(e, isRoundStart);
      }
      b := b.(exitingQuiescence := false);
    }

    method DetectOvershooting(target: nat, bytesLost: nat, statsMinRtt: nat)
      requires Usable()
      modifies `b
      ensures Usable() && b == CheckOvershoot(old(b), config, target, bytesLost, statsMinRtt)
    {
      hide SS.BandwidthFromDelta;
      b := b.(bytesLostWhileDetectingOvershooting := b.bytesLostWhileDetectingOvershooting + bytesLost);
      if b.pacingRate > target && b.bytesLostWhileDetectingOvershooting > 0 {
        if b.hasNoAppLimitedSample ||
            b.bytesLostWhileDetectingOvershooting * config.bytesLostMultiplier > b.initialCongestionWindow {
          b := b.(pacingRate := if statsMinRtt == 0 then target
                                else Max(target, SS.BandwidthFromDelta(Max(0, b.cwndToCalculateMinPacingRate),
                                    statsMinRtt)));
          b := b.(bytesLostWhileDetectingOvershooting := 0);
          b := b.(detectOvershooting := false);
        }
      }
    }

    method CalculatePacingRate(bytesLost: nat, statsMinRtt: nat)
      requires Usable()
      modifies `b
      ensures Usable() && b == UpdatePacingRate(old(b), config, bytesLost, statsMinRtt)
    {
      hide SS.BandwidthFromDelta, TargetRate, CheckOvershoot;
      if Bandwidth(b) == 0 {
        return;
      }
      var targetRate := TargetRate(b);
      if b.search.atFullBandwidth {
        b := b.(pacingRate := targetRate);
        return;
      }
      if b.pacingRate == 0 && statsMinRtt != 0 {
        b := b.(pacingRate := SS.BandwidthFromDelta(Max(0, b.initialCongestionWindow), statsMinRtt));
        return;
      }
      if b.detectOvershooting {
        DetectOvershooting(targetRate, bytesLost, statsMinRtt);
      }
      b := b.(pacingRate := Max(b.pacingRate, targetRate));
    }

    method CalculateCongestionWindow(report: Report, statsMinRtt: nat)
      requires Usable()
      modifies `b
      ensures Usable() && b == UpdateWindow(old(b), config, report, statsMinRtt)
      ensures old(b.minCongestionWindow <= b.congestionWindow <= b.maxCongestionWindow) ==>
                && b.minCongestionWindow <= b.congestionWindow <= b.maxCongestionWindow
                && (!b.search.atFullBandwidth ==> b.congestionWindow >= old(b.congestionWindow))
    {
      hide NextCongestionWindow;
      WindowClamped(b, config, report, statsMinRtt);
      if b.mode == ProbeRtt {
        return;
      }
      var window := GrownCongestionWindow(report, statsMinRtt);
      b := b.(congestionWindow := window);
    }

    /** The arithmetic of calculateCongestionWindow. */
    method GrownCongestionWindow(report: Report, statsMinRtt: nat) returns (window: int)
      requires Usable()
      ensures window == NextCongestionWindow(b, config, report, statsMinRtt)
    {
      hide Target;
      var targetWindow := Target(b, statsMinRtt, b.congestionWindowGain);
      if b.search.atFullBandwidth {
        targetWindow := targetWindow + report.maxAckHeight;
      } else if config.ackAggregationInStartup {
        targetWindow := targetWindow + report.extraAcked;
      }
      window := b.congestionWindow;
      if b.search.atFullBandwidth {
        window := Min(targetWindow, window + report.bytesAcked);
      } else if window < targetWindow || report.totalBytesAcked < b.initialCongestionWindow {
        window := window + report.bytesAcked;
      }
      window := Max(window, b.minCongestionWindow);
      window := Min(window, b.maxCongestionWindow);
    }

    method CalculateRecoveryWindow(report: Report)
      requires Usable()
      modifies `b
      ensures Usable() && b == UpdateRecoveryWindow(old(b), report)
      ensures b.recoveryState != NotInRecovery ==>
                b.recoveryWindow >= b.minCongestionWindow && b.recoveryWindow >= b.bytesInFlight + report.bytesAcked
    {
      hide NextRecoveryWindow;
      if b.recoveryState == NotInRecovery {
        return;
      }
      var window := GrownRecoveryWindow(report);
      b := b.(recoveryWindow := window);
    }

    /** The arithmetic of calculateRecoveryWindow. */
    method GrownRecoveryWindow(report: Report) returns (window: int)
      requires Usable() && b.recoveryState != NotInRecovery
      ensures window == NextRecoveryWindow(b, report)
    {
      window := b.recoveryWindow;
      if window == 0 {
        window := b.bytesInFlight + report.bytesAcked;
        window := Max(b.minCongestionWindow, window);
        return;
      }
      if window >= report.bytesLost {
        window := window - report.bytesLost;
      } else {
        window := b.maxDatagramSize;
      }
      if b.recoveryState == Growth {
        window := window + report.bytesAcked;
      }
      window := Max(window, b.bytesInFlight + report.bytesAcked);
      window := Max(b.minCongestionWindow, window);
    }

    method CountInFlight(priorInFlight: int, acked: seq<AckedPacket>, lost: seq<SS.Lost>)
      requires Usable()
      modifies `b
      ensures Usable() && b == old(b).(bytesInFlight := priorInFlight - SumAcked(acked) - SumLost(lost))
    {
      var inFlight := priorInFlight;
      for i := 0 to |acked|
        invariant inFlight == priorInFlight - SumAcked(acked[..i])
      {
        assert acked[..i + 1][..i] == acked[..i];
        inFlight := inFlight - acked[i].bytes;
      }
      assert acked[..|acked|] == acked;
      for i := 0 to |lost|
        invariant inFlight == priorInFlight - SumAcked(acked) - SumLost(lost[..i])
      {
        assert lost[..i + 1][..i] == lost[..i];
        inFlight := inFlight - lost[i].bytes;
      }
      assert lost[..|lost|] == lost;
      b := b.(bytesInFlight := inFlight);
    }

    /** The first part of OnCongestionEventEx: bytes in flight, round trips, recovery state. */
    method CountAcked(priorInFlight: int, acked: seq<AckedPacket>, lost: seq<SS.Lost>) returns (isRoundStart: bool)
      requires Usable()
      modifies `b
      ensures Usable() && Bandwidth(b) == old(Bandwidth(b)) && b.roundTripCount == RoundOf(old(b), acked)
      ensures forall e: Event :: e.priorInFlight == priorInFlight && e.acked == acked && e.lost == lost ==>
                b == Acknowledged(old(b), e) && isRoundStart == IsRoundStart(old(b), e)
    {
      hide UpdateRecovery, CountRound, SumAcked, SumLost;
      isRoundStart := false;
      CountInFlight(priorInFlight, acked, lost);
      if |acked| != 0 {
        var lastAckedPacket := acked[|acked| - 1].number;
        isRoundStart := UpdateRoundTripCounter(lastAckedPacket);
        UpdateRecoveryState(lastAckedPacket, |lost| != 0, isRoundStart);
      }
    }

    /** The second part: the sampler's report, the minimum RTT and the loss counters. */
    method Measure(e: Event) returns (minRttExpired: bool)
      requires Usable() && e.Valid()
      modifies `b
      ensures Usable() && b == CountLosses(UpdateMinRtt(TakeReport(old(b), e.report), e.now, e.report), e)
      ensures minRttExpired == MinRttExpired(old(b), e.now, e.report)
    {
      hide TakeReport;
      minRttExpired := false;
      TakeSample(e.report);
      if e.report.sampleRtt != SS.INF_RTT {
        minRttExpired := MaybeUpdateMinRtt(e.now, e.report.sampleRtt);
      }
      if |e.lost| != 0 {
        b := b.(numLossEventsInRound := b.numLossEventsInRound + 1,
            bytesLostInRound := b.bytesLostInRound + e.report.bytesLost);
      }
    }

    /** The third part: the mode transitions, PROBE_RTT excepted. */
    method MoveOn(e: Event, isRoundStart: bool)
      requires Usable() && sampler.Valid()
      modifies `b, sampler.Repr()
      ensures Usable() && b == BeforeProbeRtt(old(b), config, e, isRoundStart)
      ensures b.exitingQuiescence == old(b.exitingQuiescence) && (b.mode == ProbeRtt <==> old(b.mode) == ProbeRtt)
      ensures sampler.Valid() && sampler.Repr() == old(sampler.Repr())
      ensures sampler.View() == if isRoundStart && !old(b).search.atFullBandwidth && CheckResets(old(b), config)
                                then SS.Step(old(sampler.View()), SS.ResetHeights(0, old(b).roundTripCount))
                                else old(sampler.View())
    {
      hide UpdateCycle, CheckFullBandwidth, ExitStartupOrDrain, CheckResets, SS.Step, SS.State.Inv, PresentCount,
           Queue.AsMap, Queue.Valid, Queue.Has, RB.Unrolled;
      CycleKeepsChecks(b, config, e);
      if b.mode == ProbeBw {
        UpdateGainCyclePhase(e);
      }
      if isRoundStart && !b.search.atFullBandwidth {
        CheckIfFullBandwidthReached(e.report);
      }
      ExitKeepsProbing(b, config, e);
      MaybeExitStartupOrDrain(e);
    }

    method ChangeMode(e: Event, isRoundStart: bool, minRttExpired: bool)
      requires Usable() && sampler.Valid()
      modifies `b, sampler, sampler.Repr()
      ensures Usable() && b == Moded(old(b), config, e, isRoundStart, minRttExpired)
      ensures sampler.Valid() && sampler.Repr() == old(sampler.Repr())
      ensures sampler.View() == SamplerMoved(old(sampler.View()), old(b), config, isRoundStart, minRttExpired)
    {
      hide BeforeProbeRtt, EnterOrExitProbeRtt, EnteredProbeRtt, CheckResets, SS.State.Inv, PresentCount, Queue.AsMap,
           Queue.Valid, Queue.Has, RB.Unrolled;
      ghost var before := b;
      MoveOn(e, isRoundStart);
      SameEntry(before, b, minRttExpired);
      MaybeEnterOrExitProbeRtt(e, isRoundStart, minRttExpired);
    }

    /** The last part: rate and windows. */
    method Resize(e: Event, isRoundStart: bool)
      requires Usable()
      modifies `b
      ensures Usable() && b == Sized(old(b), config, e, isRoundStart)
    {
      hide UpdatePacingRate, UpdateWindow, UpdateRecoveryWindow;
      CalculatePacingRate(e.report.bytesLost, e.statsMinRtt);
      CalculateCongestionWindow(e.report, e.statsMinRtt);
      CalculateRecoveryWindow(e.report);
      if isRoundStart {
        b := b.(numLossEventsInRound := 0, bytesLostInRound := 0);
      }
    }

    /** maybeAppLimited */
    method LimitIfIdle(priorInFlight: int, statsMinRtt: nat)
      requires sampler.Valid()
      modifies sampler
      ensures sampler.Valid() && sampler.Repr() == old(sampler.Repr())
      ensures sampler.View() == MaybeAppLimited(old(sampler.View()), b, priorInFlight, statsMinRtt)
      ensures sampler.totalBytesAcked == old(sampler.totalBytesAcked)
    {
      hide Target, SS.State.Inv, PresentCount, Queue.AsMap, Queue.Valid, Queue.Has, RB.Unrolled;
      if priorInFlight < Target(b, statsMinRtt, 1.0) {
        sampler.OnAppLimited();
      }
    }

    /** Lets the sampler take an event, and gives what the state machine is told about it. */
    method Sample(ghost call: Call, ghost w: Whole, priorInFlight: int, eventTime: nat, acked: seq<AckedPacket>,
                  lost: seq<SS.Lost>, statsMinRtt: nat, random: nat)
      returns (e: Event)
      requires call == Congestion(priorInFlight, eventTime, acked, lost, statsMinRtt, random)
      requires sampler.Valid() && SamplerOk(w.sampler, eventTime)
      requires Bandwidth(b) == Bandwidth(w.b) && b.roundTripCount == RoundOf(w.b, acked)
      requires sampler.View() == MaybeAppLimited(w.sampler, w.b, priorInFlight, statsMinRtt)
      modifies sampler, sampler.Repr()
      ensures sampler.Valid() && fresh(sampler.Repr() - old(sampler.Repr()))
      ensures e == EventOf(w.sampler, w.b, call) && sampler.View() == Sampled(w.sampler, w.b, call).0
      ensures e.report.bytesAcked == sampler.totalBytesAcked - old(sampler.totalBytesAcked)
    {
      hide SS.CongestionEvent, SamplerOk, MaybeAppLimited, SS.State.Inv, PresentCount, Queue.AsMap, Queue.Valid,
           Queue.Has, RB.Unrolled;
      var totalBytesAckedBefore, totalBytesLostBefore := sampler.totalBytesAcked, sampler.totalBytesLost;
      var sample := sampler.OnCongestionEvent(eventTime, Numbers(acked), lost, Bandwidth(b), SS.INF_BANDWIDTH, false,
                                                b.roundTripCount);
      assert (sampler.View(), sample) == Sampled(w.sampler, w.b, call);
      e := Event(priorInFlight, eventTime, acked, lost,
                 Report(sample.sampleMaxBandwidth, sample.sampleIsAppLimited, sample.sampleRtt,
                        sample.lastPacketSendState, sample.extraAcked,
                        sampler.totalBytesAcked - totalBytesAckedBefore,
                        sampler.totalBytesLost - totalBytesLostBefore, sampler.totalBytesAcked, sampler.MaxAckHeight()),
                 statsMinRtt, random);
    }

    /** The state machine's part of an event, which can drop the heights, and limits the
        application in PROBE_RTT. */
    method Handle(e: Event, isRoundStart: bool, ghost before: Bbr)
      requires Usable() && e.Valid() && sampler.Valid()
      requires b == Acknowledged(before, e) && isRoundStart == IsRoundStart(before, e)
      modifies `b, sampler, sampler.Repr()
      ensures b == OnEvent(before, config, e)
      ensures sampler.Valid() && sampler.Repr() == old(sampler.Repr())
      ensures sampler.View() == SamplerTold(old(sampler.View()), before, config, e)
      ensures sampler.totalBytesAcked == old(sampler.totalBytesAcked)
    {
      hide Acknowledged, CountLosses, UpdateMinRtt, TakeReport, Moded, Sized, IsRoundStart, MinRttExpired,
           EnteredProbeRtt, CheckResets, SamplerMoved, SamplerTold, SS.State.Inv, PresentCount, Queue.AsMap,
           Queue.Valid, Queue.Has, RB.Unrolled;
      ghost var s := sampler.View();
      MeasuringKeepsProbing(before, e);
      ToldIsMoved(s, before, config, e);
      MovingKeepsTotals(s, Measured(before, e), config, isRoundStart, MinRttExpired(before, e.now, e.report));
      var minRttExpired := Measure(e);
      ChangeMode(e, isRoundStart, minRttExpired);
      Resize(e, isRoundStart);
    }

    /** The first parts of an event: what was acknowledged, and the sampler's report. */
    method TakeAcks(ghost call: Call, priorInFlight: int, eventTime: nat, acked: seq<AckedPacket>,
                    lost: seq<SS.Lost>, statsMinRtt: nat, random: nat)
      returns (e: Event, isRoundStart: bool)
      requires call == Congestion(priorInFlight, eventTime, acked, lost, statsMinRtt, random)
      requires Usable() && (acked != [] || lost != []) && sampler.Valid() && SamplerOk(sampler.View(), eventTime)
      modifies `b, sampler, sampler.Repr()
      ensures Usable() && sampler.Valid() && fresh(sampler.Repr() - old(sampler.Repr()))
      ensures e == EventOf(old(sampler.View()), old(b), call) && e.Valid()
      ensures b == Acknowledged(old(b), e) && isRoundStart == IsRoundStart(old(b), e)
      ensures sampler.View() == Sampled(old(sampler.View()), old(b), call).0
      ensures e.report.bytesAcked == sampler.totalBytesAcked - old(sampler.totalBytesAcked)
    {
      hide Acknowledged, IsRoundStart, Sampled, EventOf, SamplerOk, MaybeAppLimited, SS.State.Inv, PresentCount,
           Queue.AsMap, Queue.Valid, Queue.Has, RB.Unrolled;
      ghost var w := Whole(b, sampler.View(), pacer.View(), clock);
      LimitIfIdle(priorInFlight, statsMinRtt);
      isRoundStart := CountAcked(priorInFlight, acked, lost);
      e := Sample(call, w, priorInFlight, eventTime, acked, lost, statsMinRtt, random);
    }

    /** An event up to the clearing of obsolete packets. */
    method TakeEvent(ghost call: Call, priorInFlight: int, eventTime: nat, acked: seq<AckedPacket>,
                     lost: seq<SS.Lost>, statsMinRtt: nat, random: nat)
      returns (ghost e: Event)
      requires call == Congestion(priorInFlight, eventTime, acked, lost, statsMinRtt, random)
      requires Usable() && (acked != [] || lost != []) && sampler.Valid() && SamplerOk(sampler.View(), eventTime)
      modifies `b, sampler, sampler.Repr()
      ensures sampler.Valid() && fresh(sampler.Repr() - old(sampler.Repr()))
      ensures e == EventOf(old(sampler.View()), old(b), call) && b == OnEvent(old(b), config, e)
      ensures sampler.View() == SamplerLimited(old(sampler.View()), old(b), config, call)
      ensures e.report.bytesAcked == sampler.totalBytesAcked - old(sampler.totalBytesAcked)
    {
      hide Acknowledged, OnEvent, IsRoundStart, Sampled, EventOf, SamplerOk, SamplerTold, SS.Step, SS.State.Inv,
           PresentCount, Queue.AsMap, Queue.Valid, Queue.Has, RB.Unrolled;
      ghost var before := b;
      var event, isRoundStart := TakeAcks(call, priorInFlight, eventTime, acked, lost, statsMinRtt,
                                          random);
      e := event;
      Handle(event, isRoundStart, before);
    }

    /** An event with that. */
    method FinishEvent(ghost call: Call, priorInFlight: int, eventTime: nat, acked: seq<AckedPacket>,
                       lost: seq<SS.Lost>, statsMinRtt: nat, random: nat)
      returns (ghost e: Event)
      requires call == Congestion(priorInFlight, eventTime, acked, lost, statsMinRtt, random)
      requires Usable() && (acked != [] || lost != []) && sampler.Valid() && SamplerOk(sampler.View(), eventTime)
      modifies `b, sampler, sampler.Repr()
      ensures sampler.Valid() && fresh(sampler.Repr() - old(sampler.Repr()))
      ensures e == EventOf(old(sampler.View()), old(b), call) && b == OnEvent(old(b), config, e)
      ensures sampler.View() == SamplerAfter(old(sampler.View()), old(b), config, call)
      ensures e.report.bytesAcked == sampler.totalBytesAcked - old(sampler.totalBytesAcked)
    {
      hide OnEvent, EventOf, SamplerLimited, SamplerOk, SS.Step, SS.State.Inv, PresentCount, Queue.AsMap, Queue.Valid,
           Queue.Has, RB.Unrolled;
      e := TakeEvent(call, priorInFlight, eventTime, acked, lost, statsMinRtt, random);
      var leastUnacked := if |acked| != 0 then acked[|acked| - 1].number - 2 else lost[|lost| - 1].number + 1;
      RemovingKeepsTotals(sampler.View(), leastUnacked);
      sampler.RemoveObsoletePackets(leastUnacked);
    }

    /** OnCongestionEventEx: one ack or loss event. */
    method OnCongestionEventEx(priorInFlight: int, eventTime: nat, acked: seq<AckedPacket>, lost: seq<SS.Lost>,
                               statsMinRtt: nat, random: nat)
      requires Valid() && clock <= eventTime && (acked != [] || lost != [])
      modifies this, sampler, sampler.Repr()
      ensures Valid() && fresh(sampler.Repr() - old(sampler.Repr()))
      ensures View() == Next(old(View()), config,
                             Congestion(priorInFlight, eventTime, acked, lost, statsMinRtt, random))
      ensures b.minCongestionWindow <= GetCongestionWindow(b) <= b.maxCongestionWindow && CanSend(b, 0)
      ensures b.congestionWindow <= old(b.congestionWindow) + (sampler.totalBytesAcked - old(sampler.totalBytesAcked))
      ensures !b.search.atFullBandwidth ==> b.congestionWindow >= old(b.congestionWindow)
      ensures b.recoveryState != NotInRecovery ==>
                b.recoveryWindow >= b.bytesInFlight + (sampler.totalBytesAcked - old(sampler.totalBytesAcked))
      ensures ModeChange(old(b), b)
    {
      hide OnEvent, ModeChange, Inv, GetCongestionWindow, CanSend, WholeInv, Next, EventOf, SamplerAfter, SamplerOk,
           SS.State.Inv, PresentCount, Queue.AsMap, Queue.Valid, Queue.Has, RB.Unrolled;
      ghost var w, call := View(), Congestion(priorInFlight, eventTime, acked, lost, statsMinRtt, random);
      NextIs(w, config, call);
      SamplerLater(w.sampler, w.clock, eventTime);
      EventGuarantees(w.b, config, EventOf(w.sampler, w.b, call));
      ghost var e := FinishEvent(call, priorInFlight, eventTime, acked, lost, statsMinRtt, random);
      clock := eventTime;
    }

    method RecordSent(bytesInFlight: int, packetNumber: int)
      modifies `b
      ensures b == BbrState.OnPacketSent(old(b), bytesInFlight, packetNumber)
    {
      b := b.(lastSentPacket := packetNumber, bytesInFlight := bytesInFlight);
      if bytesInFlight == 0 {
        b := b.(exitingQuiescence := true);
      }
    }

    /** The pacer's part of sending. */
    method PaceSent(sentTime: nat, bytes: nat, statsMinRtt: nat)
      requires pacer.lastSentTime == 0 || pacer.lastSentTime <= sentTime
      modifies pacer
      ensures pacer.View() == old(pacer.View()).Sent(sentTime, bytes, BandwidthForPacer(b, config, statsMinRtt))
    {
      hide BandwidthForPacer, P.Bucket.Budget, P.Bucket.Sent;
      pacer.SentPacket(sentTime, bytes, BandwidthForPacer(b, config, statsMinRtt));
    }

    /** Sending, but for the time. */
    method TrackSent(sentTime: nat, bytesInFlight: int, packetNumber: nat, bytes: nat, isRetransmittable: bool,
                     statsMinRtt: nat)
      requires sampler.Valid() && (pacer.lastSentTime == 0 || pacer.lastSentTime <= sentTime)
      modifies `b, pacer, sampler, sampler.Repr()
      ensures sampler.Valid() && fresh(sampler.Repr() - old(sampler.Repr()))
      ensures pacer.View() == old(pacer.View()).Sent(sentTime, bytes, BandwidthForPacer(old(b), config, statsMinRtt))
      ensures b == BbrState.OnPacketSent(old(b), bytesInFlight, packetNumber)
      ensures sampler.View() ==
                SS.PacketSent(old(sampler.View()), sentTime, packetNumber, bytes, bytesInFlight, isRetransmittable)
    {
      hide BandwidthForPacer, P.Bucket.Budget, P.Bucket.Sent, SS.PacketSent, BbrState.OnPacketSent, SS.State.Inv,
           PresentCount, Queue.AsMap, Queue.Valid, Queue.Has, RB.Unrolled;
      PaceSent(sentTime, bytes, statsMinRtt);
      RecordSent(bytesInFlight, packetNumber);
      sampler.OnPacketSent(sentTime, packetNumber, bytes, bytesInFlight, isRetransmittable);
    }

    method OnPacketSent(sentTime: nat, bytesInFlight: int, packetNumber: nat, bytes: nat, isRetransmittable: bool,
                        statsMinRtt: nat)
      requires Valid() && clock <= sentTime
      modifies this, pacer, sampler, sampler.Repr()
      ensures Valid() && fresh(sampler.Repr() - old(sampler.Repr()))
      ensures View() == Next(old(View()), config,
                             Send(sentTime, bytesInFlight, packetNumber, bytes, isRetransmittable, statsMinRtt))
      ensures GetCongestionWindow(b) == old(GetCongestionWindow(b)) && KeepsModes(old(b), b) && KeepsWindows(old(b), b)
    {
      hide BandwidthForPacer, SS.PacketSent, P.Bucket.Budget, P.Bucket.Sent, WholeInv, Next, Inv,
           BbrState.OnPacketSent, GetCongestionWindow, KeepsModes, KeepsWindows, SS.State.Inv, PresentCount,
           Queue.AsMap, Queue.Valid, Queue.Has, RB.Unrolled;
      NextIs(View(), config, Send(sentTime, bytesInFlight, packetNumber, bytes, isRetransmittable, statsMinRtt));
      SendingKeepsWindow(b, bytesInFlight, packetNumber);
      TrackSent(sentTime, bytesInFlight, packetNumber, bytes, isRetransmittable, statsMinRtt);
      clock := sentTime;
    }

    /** rescalePacketSizedWindows */
    method RescalePacketSizedWindows(s: int)
      requires b.maxDatagramSize > 0
      modifies `b
      ensures b == old(b).(maxDatagramSize := s,
                           initialCongestionWindow :=
                             Rescale(old(b).initialCongestionWindow, old(b).maxDatagramSize, s),
                           maxCongestionWindow := Rescale(old(b).maxCongestionWindow, old(b).maxDatagramSize, s),
                           minCongestionWindow := MIN_WINDOW_PACKETS * s,
                           cwndToCalculateMinPacingRate :=
                             Rescale(old(b).cwndToCalculateMinPacingRate, old(b).maxDatagramSize, s))
    {
      hide Rescale;
      var oldMaxDatagramSize := b.maxDatagramSize;
      b := b.(maxDatagramSize := s);
      b := b.(initialCongestionWindow := Rescale(b.initialCongestionWindow, oldMaxDatagramSize, s));
      b := b.(maxCongestionWindow := Rescale(b.maxCongestionWindow, oldMaxDatagramSize, s));
      b := b.(minCongestionWindow := MIN_WINDOW_PACKETS * s);
      b := b.(cwndToCalculateMinPacingRate := Rescale(b.cwndToCalculateMinPacingRate, oldMaxDatagramSize, s));
    }

    /** The windows at a new datagram size. */
    method ResizeWindows(s: int)
      requires b.maxDatagramSize > 0
      modifies `b
      ensures b == Resized(old(b), s)
    {
      hide Rescale;
      var oldMinCongestionWindow := b.minCongestionWindow;
      var oldInitialCongestionWindow := b.initialCongestionWindow;
      RescalePacketSizedWindows(s);
      if b.congestionWindow == oldMinCongestionWindow {
        b := b.(congestionWindow := b.minCongestionWindow);
      } else if b.congestionWindow == oldInitialCongestionWindow {
        b := b.(congestionWindow := b.initialCongestionWindow);
      } else {
        b := b.(congestionWindow := Min(b.maxCongestionWindow, Max(b.congestionWindow, b.minCongestionWindow)));
      }
      b := b.(recoveryWindow := Min(b.maxCongestionWindow, Max(b.recoveryWindow, b.minCongestionWindow)));
    }

    method SetMaxDatagramSize(s: nat)
      requires Valid() && s >= b.maxDatagramSize
      modifies this, pacer
      ensures Valid() && View() == Next(old(View()), config, SetSize(s))
      ensures b.maxDatagramSize == pacer.maxDatagramSize == s
      ensures b.congestionWindow >= old(b.congestionWindow) && CanSend(b, 0) && KeepsModes(old(b), b)
    {
      hide Rescale, Resized, GetCongestionWindow, CanSend, WholeInv, Next, Inv, SS.State.Inv, PresentCount,
           Queue.AsMap, Queue.Valid, Queue.Has, RB.Unrolled;
      NextIs(View(), config, SetSize(s));
      ResizeGuarantees(b, config, s);
      ResizedTo(b, s);
      ResizeWindows(s);
      pacer.SetMaxDatagramSize(s);
    }

    predicate HasPacingBudget(now: nat, statsMinRtt: nat)
      reads this, pacer
      requires pacer.lastSentTime == 0 || pacer.lastSentTime <= now
    {
      pacer.Budget(now, BandwidthForPacer(b, config, statsMinRtt)) >= b.maxDatagramSize
    }

    /** From the time returned on there is budget for a packet, if the pacer's datagram size is
        not smaller than the sender's. */
    function TimeUntilSend(statsMinRtt: nat): (r: nat)
      reads this, pacer
      ensures b.maxDatagramSize <= pacer.maxDatagramSize ==>
                forall now :: pacer.lastSentTime <= now && r <= now ==> HasPacingBudget(now, statsMinRtt)
    {
      pacer.TimeUntilSend(BandwidthForPacer(b, config, statsMinRtt))
    }
  }

  lemma UnstartedIsUsable(c: Config, size: int)
    requires c.Valid()
    ensures Unstarted(c, size).maxDatagramSize == size && Unstarted(c, size).cycleOffset < GAIN_CYCLE_LENGTH
  {
  }

  lemma InitialCanSend(c: Config, size: int)
    requires size > 0
    ensures var s := Initial(c, size);
            s.mode == Startup && GetCongestionWindow(s) == INITIAL_WINDOW_PACKETS * size && CanSend(s, 0)
  {
  }

  lemma SendingKeepsWindow(s: Bbr, bytesInFlight: int, packetNumber: int)
    ensures var z := BbrState.OnPacketSent(s, bytesInFlight, packetNumber);
            GetCongestionWindow(z) == GetCongestionWindow(s) && KeepsModes(s, z) && KeepsWindows(s, z)
  {
  }

  lemma RemovingKeepsTotals(s: SS.State, n: int)
    requires s.Inv()
    ensures SS.Step(s, SS.RemoveObsolete(n)).totalBytesAcked == s.totalBytesAcked
  {
  }

  lemma ResizedTo(s: Bbr, size: int)
    requires s.maxDatagramSize > 0
    ensures Resized(s, size).maxDatagramSize == size
  {
    hide Rescale;
  }

  /** Measuring leaves open whether PROBE_RTT is to be entered. */
  lemma MeasuringKeepsProbing(s: Bbr, e: Event)
    ensures MinRttExpired(Acknowledged(s, e), e.now, e.report) == MinRttExpired(s, e.now, e.report)
    ensures forall expired :: EnteredProbeRtt(Measured(s, e), expired).mode == EnteredProbeRtt(s, expired).mode
  {
    hide Measured, Acknowledged;
  }

  /** The gain cycle does not touch what a check for full bandwidth looks at. */
  lemma CycleKeepsChecks(s: Bbr, c: Config, e: Event)
    ensures var z := UpdateCycle(s, c, e);
            CheckResets(z, c) == CheckResets(s, c) && z.roundTripCount == s.roundTripCount && z.search == s.search
  {
    hide Target, AdvancesCycle, Stalls;
  }

  lemma SameEntry(s: Bbr, z: Bbr, expired: bool)
    requires z.exitingQuiescence == s.exitingQuiescence && (z.mode == ProbeRtt <==> s.mode == ProbeRtt)
    ensures EnteredProbeRtt(z, expired).mode == ProbeRtt <==> EnteredProbeRtt(s, expired).mode == ProbeRtt
  {
  }

  /** Leaving STARTUP or DRAIN does not touch PROBE_RTT. */
  lemma ExitKeepsProbing(s: Bbr, c: Config, e: Event)
    requires c.highGain != 0.0
    ensures var z := ExitStartupOrDrain(s, c, e);
            z.exitingQuiescence == s.exitingQuiescence && (z.mode == ProbeRtt <==> s.mode == ProbeRtt)
  {
    hide Target, StartOffset;
  }
}
