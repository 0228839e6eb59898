/** The pacing rate after an event, and what the pacer is given, in numbers
    (internal/congestion/bbr/bbr_sender.go). */
module RateLaws {
  import opened Arithmetic
  import SS = SamplerState
  import opened BbrState
  import opened SampleLaws
  import opened WindowLaws

  /** r is `gain` times the bandwidth estimate in bit/s, rounded down. */
  predicate IsGained(r: int, z: Bbr) {
    r >= 0 && r as real <= z.pacingGain * z.maxBandwidth.best.sample as real < r as real + 1.0
  }

  lemma TargetRateIs(z: Bbr)
    requires z.pacingGain >= 0.0
    ensures IsGained(TargetRate(z), z)
  {
    hide Gained;
    GainedIs(z.pacingGain, Bandwidth(z));
  }

  /** Losses while overshooting is watched for, when the rate is above its target: enough of them
      if a sample was not limited by the application, or when they weigh more than the initial window. */
  predicate SlowsDown(s: Bbr, z: Bbr, c: Config, target: int, lost: nat) {
    && s.pacingRate > target && lost > 0
    && (z.hasNoAppLimitedSample || lost * c.bytesLostMultiplier > s.initialCongestionWindow)
  }

  /** The rate before full bandwidth, when there was one: the target if that is higher. It is
      lowered, once, by enough losses: to the target, but not below the rate that sends the
      minimal pacing window in one minimum RTT. */
  predicate IsStartupRate(s: Bbr, z: Bbr, c: Config, e: Event, target: int, least: int) {
    var lost := s.bytesLostWhileDetectingOvershooting + e.report.bytesLost;
    if s.detectOvershooting && SlowsDown(s, z, c, target, lost) then
      && z.pacingRate == (if e.statsMinRtt == 0 then target else Max(target, least))
      && !z.detectOvershooting && z.bytesLostWhileDetectingOvershooting == 0
    else
      && z.pacingRate == Max(s.pacingRate, target) && z.detectOvershooting == s.detectOvershooting
      && z.bytesLostWhileDetectingOvershooting ==
         (if s.detectOvershooting then lost else s.bytesLostWhileDetectingOvershooting)
  }

  /** A window sent once in a minimum RTT, as a rate. */
  predicate IsWindowRate(r: int, window: int, rtt: int) {
    rtt > 0 && window >= 0 && NoOverflow(window, rtt) ==> IsSlope(r, window, rtt)
  }

  lemma WindowRateIs(window: int, rtt: nat)
    requires rtt > 0
    ensures IsWindowRate(SS.BandwidthFromDelta(Max(0, window), rtt), window, rtt)
  {
    hide SS.BandwidthFromDelta;
    if window >= 0 && NoOverflow(window, rtt) { RateIsSlope(window, rtt); }
  }

  lemma PacedIs(m: Bbr, c: Config, e: Event) returns (target: int, first: int, least: int)
    requires m.pacingGain >= 0.0
    ensures var z := UpdatePacingRate(m, c, e.report.bytesLost, e.statsMinRtt);
            && IsGained(target, m) && KeepsEstimates(m, z)
            && (e.statsMinRtt > 0 ==> IsWindowRate(first, m.initialCongestionWindow, e.statsMinRtt)
                                      && IsWindowRate(least, m.cwndToCalculateMinPacingRate, e.statsMinRtt))
            && if Bandwidth(m) == 0 then z.pacingRate == m.pacingRate
               else if m.search.atFullBandwidth then z.pacingRate == target
               else if m.pacingRate == 0 && e.statsMinRtt > 0 then z.pacingRate == first
               else IsStartupRate(m, z, c, e, target, least)
  {
    hide SS.BandwidthFromDelta, TargetRate, IsWindowRate, IsStartupRate, CheckOvershoot, IsGained;
    TargetRateIs(m);
    target, first, least := TargetRate(m), 0, 0;
    if e.statsMinRtt > 0 {
      WindowRateIs(m.initialCongestionWindow, e.statsMinRtt);
      WindowRateIs(m.cwndToCalculateMinPacingRate, e.statsMinRtt);
      first := SS.BandwidthFromDelta(Max(0, m.initialCongestionWindow), e.statsMinRtt);
      least := SS.BandwidthFromDelta(Max(0, m.cwndToCalculateMinPacingRate), e.statsMinRtt);
    }
    StartupPaced(m, c, e, least);
  }

  lemma StartupPaced(m: Bbr, c: Config, e: Event, least: int)
    requires e.statsMinRtt > 0 ==>
               least == SS.BandwidthFromDelta(Max(0, m.cwndToCalculateMinPacingRate), e.statsMinRtt)
    ensures Bandwidth(m) != 0 && !m.search.atFullBandwidth && (m.pacingRate != 0 || e.statsMinRtt == 0) ==>
              IsStartupRate(m, UpdatePacingRate(m, c, e.report.bytesLost, e.statsMinRtt), c, e, TargetRate(m), least)
  {
    hide SS.BandwidthFromDelta, TargetRate;
  }

  /** The rate after an event. At full bandwidth it is the gain times the estimate, before that it
      starts with the initial window once in a minimum RTT; without an estimate it stays. */
  lemma RateAfterEvent(s: Bbr, c: Config, e: Event) returns (target: int, first: int, least: int)
    requires c.Valid() && OnEvent(s, c, e).pacingGain >= 0.0
    ensures var z := OnEvent(s, c, e);
            && IsGained(target, z)
            && (e.statsMinRtt > 0 ==> IsWindowRate(first, s.initialCongestionWindow, e.statsMinRtt)
                                      && IsWindowRate(least, s.cwndToCalculateMinPacingRate, e.statsMinRtt))
            && if z.maxBandwidth.best.sample == 0 then z.pacingRate == s.pacingRate
               else if z.search.atFullBandwidth then z.pacingRate == target
               else if s.pacingRate == 0 && e.statsMinRtt > 0 then z.pacingRate == first
               else IsStartupRate(s, z, c, e, target, least)
  {
    hide Measured, Moded, Sized, IsRoundStart, MinRttExpired, IsGained, IsWindowRate;
    var m := Moded(Measured(s, e), c, e, IsRoundStart(s, e), MinRttExpired(s, e.now, e.report));
    var z := OnEvent(s, c, e);
    SizedPaces(m, c, e, IsRoundStart(s, e));
    target, first, least := PacedIs(m, c, e);
    SameGain(target, m, z);
  }

  lemma SameGain(target: int, m: Bbr, z: Bbr)
    requires IsGained(target, m) && m.pacingGain == z.pacingGain && KeepsEstimates(m, z)
    ensures IsGained(target, z)
  {
  }

  lemma SizedPaces(m: Bbr, c: Config, e: Event, rs: bool)
    ensures KeepsRate(UpdatePacingRate(m, c, e.report.bytesLost, e.statsMinRtt), Sized(m, c, e, rs))
  {
    hide UpdatePacingRate, UpdateWindow, UpdateRecoveryWindow;
  }

  // ----- What the pacer is given

  /** The pacer's bandwidth is an eighth of the rate in bit/s, rounded down, but at least 65536
      bytes/s. Without a rate it is that of the initial window sent once in a minimum RTT, times
      the high gain. */
  lemma PacerBandwidthIs(s: Bbr, c: Config, statsMinRtt: nat) returns (rate: int, q: int)
    requires c.Valid() && s.initialCongestionWindow >= 0
    ensures var r := BandwidthForPacer(s, c, statsMinRtt);
            && r >= 65536 && (if rate >= 8 * 65536 then 8 * r <= rate < 8 * (r + 1) else r == 65536)
            && (s.pacingRate > 0 ==> rate == s.pacingRate)
            && (s.pacingRate == 0 ==>
                  && IsWindowRate(q, s.initialCongestionWindow, Rtt(s, statsMinRtt))
                  && rate as real <= c.highGain * q as real < rate as real + 1.0)
  {
    hide Gained, SS.BandwidthFromDelta, IsWindowRate;
    rate, q := PacingRate(s, c, statsMinRtt), 0;
    if s.pacingRate == 0 {
      WindowRateIs(s.initialCongestionWindow, Rtt(s, statsMinRtt));
      q := SS.BandwidthFromDelta(Max(0, s.initialCongestionWindow), Rtt(s, statsMinRtt));
      GainedIs(c.highGain, q);
    }
    EighthIs(rate);
  }

  lemma EighthIs(rate: int)
    requires rate >= 0
    ensures SS.Truncate(rate as real / 8.0) == rate / 8
  {
    var q, r := rate / 8, rate % 8;
    assert rate as real == q as real * 8.0 + r as real;
  }
}
