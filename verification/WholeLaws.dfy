/** How the sender and its sampler work together in an event: what the sampler is told, what it
    forgets, and what its report says (internal/congestion/bbr/bbr_sender.go). */
module WholeLaws {
  import opened Arithmetic
  import opened PacketQueue
  import P = Pacer
  import SS = SamplerState
  import opened BbrState
  import opened BbrProofs
  import BbrGrowth
  import opened BbrWhole
  import H = SamplerHistory
  import opened WindowLaws
  import opened ModeLaws

  /** The sampler as an event finds it: limited by the application if it was, or if the packets in
      flight do not fill the bandwidth-delay product t. */
  ghost predicate IsLimitedFrom(s: SS.State, s1: SS.State, priorInFlight: int, t: int) {
    && s1 == s.(isAppLimited := s1.isAppLimited, endOfAppLimitedPhase := s1.endOfAppLimitedPhase)
    && s1.isAppLimited == (s.isAppLimited || priorInFlight < t)
    && s1.endOfAppLimitedPhase == if priorInFlight < t then s.lastSentPacket else s.endOfAppLimitedPhase
  }

  lemma LimitedIs(s: SS.State, b: Bbr, priorInFlight: int, statsMinRtt: nat) returns (t: int)
    requires s.Inv() && b.initialCongestionWindow >= 0
    ensures IsTarget(t, b, statsMinRtt, 1.0)
    ensures IsLimitedFrom(s, MaybeAppLimited(s, b, priorInFlight, statsMinRtt), priorInFlight, t)
  {
    hide Target, IsTarget, SS.PacketsOk, SS.PointsOk;
    t := Target(b, statsMinRtt, 1.0);
    TargetIs(b, statsMinRtt, 1.0);
  }

  /** Whether the sampler is told in an event that the application limits it: PROBE_RTT lasts or starts. */
  predicate LimitsInProbe(b: Bbr, e: Event) { b.mode == ProbeRtt || (IsOld(b, e) && !b.exitingQuiescence) }

  /** The last packet acked less two, or the one behind the last lost. */
  function Oldest(a: Call): int
    requires a.Congestion? && (a.acked != [] || a.lost != [])
  {
    if a.acked != [] then a.acked[|a.acked| - 1].number - 2 else a.lost[|a.lost| - 1].number + 1
  }

  lemma MovedIs(s: SS.State, m: Bbr, c: Config, rs: bool, old_: bool)
    requires s.Inv()
    ensures var z := SamplerMoved(s, m, c, rs, old_);
            var limits := m.mode == ProbeRtt || (old_ && !m.exitingQuiescence);
            && z.packets == s.packets && z.totalBytesAcked == s.totalBytesAcked
            && z.isAppLimited == (s.isAppLimited || limits)
            && z.endOfAppLimitedPhase == (if limits then s.lastSentPacket else s.endOfAppLimitedPhase)
            && z.tracker.heights == (if rs && !m.search.atFullBandwidth && CheckResets(m, c)
                                     then SS.AllHeights(0, m.roundTripCount) else s.tracker.heights)
  {
    hide SS.PacketsOk, SS.PointsOk, CheckResets;
  }

  lemma SampledIs(s: SS.State, b: Bbr, a: Call) returns (t: int, s1: SS.State)
    requires a.Congestion? && SamplerOk(s, a.now) && b.initialCongestionWindow >= 0
    ensures IsTarget(t, b, a.statsMinRtt, 1.0) && IsLimitedFrom(s, s1, a.priorInFlight, t)
    ensures var r, m := Sampled(s, b, a).0, s.packets.AsMap();
            && r.packets == s.packets && r.lastSentPacket == s.lastSentPacket
            && r.endOfAppLimitedPhase == s1.endOfAppLimitedPhase
            && r.totalBytesAcked == s.totalBytesAcked + H.KnownBytes(m, Numbers(a.acked))
            && r.totalBytesLost == s.totalBytesLost + H.LostBytes(a.lost)
            && (r.isAppLimited <==>
                  s1.isAppLimited && !H.LeavesLimit(m, Numbers(a.acked), s1.endOfAppLimitedPhase))
  {
    hide SS.CongestionEvent, SS.State.Inv, Queue.AsMap, IsTarget, SentBy, Target, H.LeavesLimit;
    t := LimitedIs(s, b, a.priorInFlight, a.statsMinRtt);
    s1 := MaybeAppLimited(s, b, a.priorInFlight, a.statsMinRtt);
    H.EventIs(s1, a.now, Numbers(a.acked), a.lost, Bandwidth(b), SS.INF_BANDWIDTH, false, RoundOf(b, a.acked));
  }

  /** What an event reports: the bytes of the remembered packets acked, the bytes lost, and the best
      ack height; and what the sampler is then: it has forgotten the old packets, and the
      application limits it until a packet sent from now on is acked, if few bytes were in
      flight or PROBE_RTT has begun. */
  lemma SamplerAfterEvent(w: Whole, c: Config, a: Call) returns (t: int)
    requires c.Valid() && WholeInv(w, c) && Permitted(w, a) && a.Congestion?
    ensures SamplerOk(w.sampler, w.clock) && w.pacer.lastSentTime <= w.clock && w.b.maxDatagramSize > 0
    ensures SamplerOk(w.sampler, a.now) && IsTarget(t, w.b, a.statsMinRtt, 1.0)
    ensures var s, z, m := w.sampler, Next(w, c, a).sampler, w.sampler.packets.AsMap();
            var e, numbers := EventOf(w.sampler, w.b, a), Numbers(a.acked);
            var low := a.priorInFlight < t;
            var end := if low then s.lastSentPacket else s.endOfAppLimitedPhase;
            && e.report.bytesAcked == H.KnownBytes(m, numbers) && e.report.bytesLost == H.LostBytes(a.lost)
            && e.report.totalBytesAcked == s.totalBytesAcked + e.report.bytesAcked == z.totalBytesAcked
            && z.packets.AsMap() == Restrict(m, Oldest(a))
            && (z.isAppLimited <==>
                  LimitsInProbe(w.b, e) || ((s.isAppLimited || low) && !H.LeavesLimit(m, numbers, end)))
            && z.endOfAppLimitedPhase == (if LimitsInProbe(w.b, e) then s.lastSentPacket else end)
            && z.tracker.heights.best.event.extraAcked ==
               (if ResetsHeights(w.b, c, e) then 0 else e.report.maxAckHeight)
  {
    hide WholeInv, SamplerOk, Inv, SS.State.Inv, Sampled, SamplerMoved, Queue.AsMap, RemovedUpTo, IsTarget, Measured,
        H.LeavesLimit, OnEvent;
    NextIs(w, c, a);
    SamplerLater(w.sampler, w.clock, a.now);
    InvHasWindow(w, c);
    var s1: SS.State;
    t, s1 := SampledIs(w.sampler, w.b, a);
    var r, e := Sampled(w.sampler, w.b, a).0, EventOf(w.sampler, w.b, a);
    MeasuredIs(w.b, e);
    OkIsInv(r, a.now);
    MovedIs(r, Measured(w.b, e), c, IsRoundStart(w.b, e), MinRttExpired(w.b, e.now, e.report));
    ToldIsMoved(r, w.b, c, e);
    var l := SamplerLimited(w.sampler, w.b, c, a);
    OkIsInv(l, a.now);
    H.RemoveIs(l, Oldest(a));
  }

  lemma OkIsInv(s: SS.State, clock: nat)
    requires SamplerOk(s, clock)
    ensures s.Inv()
  {
  }

  lemma InvHasWindow(w: Whole, c: Config)
    requires c.Valid() && WholeInv(w, c)
    ensures w.b.initialCongestionWindow >= 0
  {
    LimitsInOrder(w.b, c);
  }

  /** The heights are dropped, in a profile that wants it, at a round's start in STARTUP whose
      latest sample is not limited by the application and whose estimate is at least a quarter
      above the one of the last raise. */
  lemma ResetsHeightsIff(b: Bbr, c: Config, e: Event)
    requires c.highGain != 0.0 && b.search.bandwidthAtLastRound % 8 == 0
    ensures var z := OnEvent(b, c, e);
            ResetsHeights(b, c, e) <==>
              && c.expireAckAggregationInStartup && PassesEnd(b, e) && !b.search.atFullBandwidth
              && !z.lastSampleIsAppLimited
              && 4 * z.maxBandwidth.best.sample >= 5 * b.search.bandwidthAtLastRound
  {
    hide Measured, Moded, Sized, MinRttExpired, SS.Truncate;
    MeasuredIs(b, e);
    BbrGrowth.TargetIsExact(b.search.bandwidthAtLastRound);
  }

  /** Sending: the packet's bytes leave the pacer's budget, as far as there is any; an idle connection
      is remembered as quiescent until its next event. */
  lemma SendAfterCall(w: Whole, c: Config, a: Call)
    requires c.Valid() && WholeInv(w, c) && Permitted(w, a) && a.Send?
    ensures SamplerOk(w.sampler, w.clock) && w.pacer.lastSentTime <= a.now && w.b.maxDatagramSize > 0
    ensures var z, bw := Next(w, c, a), BandwidthForPacer(w.b, c, a.statsMinRtt);
            && z.pacer.lastSentTime == a.now
            && z.pacer.Budget(a.now, bw) == (if a.now == 0 then z.pacer.MaxBurstSize(bw)
                                             else Max(0, w.pacer.Budget(a.now, bw) - a.bytes))
            && z.b.lastSentPacket == a.number && z.b.bytesInFlight == a.bytesInFlight
            && (z.b.exitingQuiescence <==> w.b.exitingQuiescence || a.bytesInFlight == 0)
            && z.b.mode == w.b.mode && z.b.congestionWindow == w.b.congestionWindow
            && z.b.pacingRate == w.b.pacingRate
  {
    hide WholeInv, SamplerOk, Inv, SS.PacketSent, BandwidthForPacer, P.Bucket.MaxBurstSize;
    NextIs(w, c, a);
    P.SameBurst(w.pacer, Next(w, c, a).pacer, BandwidthForPacer(w.b, c, a.statsMinRtt));
  }

  /** A new sender: STARTUP with a window of 32 datagrams, no rate, no estimate, no point to measure
      from; heights are remembered for ten rounds, as the profile asks; and the pacer has not
      sent yet. */
  lemma NewSenderIs(c: Config, size: int, pacerSize: nat, delay: nat)
    requires c.Valid() && size > 0
    ensures var w := NewWhole(c, size, pacerSize, delay);
            && w.b.mode == Startup && w.b.congestionWindow == 32 * size && w.b.minCongestionWindow == 4 * size
            && w.b.maxCongestionWindow == c.maxWindowPackets * size && w.b.pacingRate == 0
            && w.b.maxBandwidth.best.sample == 0 && w.b.minRtt == 0 && !w.b.search.atFullBandwidth
            && w.b.detectOvershooting == c.detectOvershooting && w.b.recoveryState == NotInRecovery
            && H.AnchorOf(w.sampler) == H.Anchor(0, 0, 0) && w.sampler.packets.AsMap() == map[]
            && w.sampler.tracker.window == 10 && w.sampler.tracker.heights.best.event.extraAcked == 0
            && w.sampler.overestimateAvoidance == c.overestimateAvoidance
            && w.sampler.tracker.threshold == (if c.overestimateAvoidance then 2.0 else 1.0)
            && w.sampler.tracker.reduceOnNewMax == c.reduceExtraAcked
            && w.pacer.lastSentTime == 0 && w.pacer.maxDatagramSize == pacerSize && w.pacer.minPacingDelay == delay
  {
    hide SS.PacketsOk, SS.PointsOk;
  }
}
