/** A division by zero that the BBR sender does not exclude
    (internal/congestion/bbr/bbr_sender.go, internal/congestion/bbr/bandwidth.go). */
module BbrDivision {
  import opened Arithmetic
  import opened Wrappers
  import opened PacketQueue
  import SS = SamplerState
  import WF = WindowedFilter
  import opened BbrState
  import opened BbrWhole

  /** When calculatePacingRate divides by a minimum RTT of zero: it is about to slow down for
      overshooting while the RTT statistics have no sample. */
  predicate DividesByZero(s: Bbr, c: Config, bytesLost: nat, statsMinRtt: nat) {
    && Bandwidth(s) != 0 && !s.search.atFullBandwidth && s.detectOvershooting
    && Overshoots(s, c, TargetRate(s), s.bytesLostWhileDetectingOvershooting + bytesLost)
    && statsMinRtt == 0
  }

  /** Whether an event comes to that division, in its last part. */
  predicate EventDivides(s: Bbr, c: Config, e: Event)
    requires c.highGain != 0.0
  {
    DividesByZero(Moded(Measured(s, e), c, e, IsRoundStart(s, e), MinRttExpired(s, e.now, e.report)), c,
                  e.report.bytesLost, e.statsMinRtt)
  }

  // ----- What two events do to the state machine

  const T0 := 1_000_000_000
  const T1 := T0 + 20_000_000
  const T2 := T1 + 12 * SECOND

  predicate HasSample(e: Event, bandwidth: nat, rtt: nat) {
    && e.report.sampleMaxBandwidth == bandwidth && !e.report.sampleIsAppLimited && e.report.sampleRtt == rtt
    && e.report.bytesAcked > 0 && e.statsMinRtt == 0
    && e.report.lastPacketSendState.Some? && !e.report.lastPacketSendState.value.isAppLimited
  }

  /** A sender that has sent three packets and heard nothing. */
  ghost predicate Started(s: Bbr, c: Config) {
    && s.lastSentPacket == 2 && s.mode == Startup && s.search == Search(false, 0, 0)
    && s.minRtt == 0 && s.maxBandwidth == WF.NO_ESTIMATES && s.pacingRate == 0 && s.pacingGain == c.highGain
    && s.detectOvershooting && s.bytesLostWhileDetectingOvershooting == 0 && s.currentRoundTripEnd == -1
    && s.roundTripCount == 0
  }

  /** One that has had a sample of 400 kbit/s and 20 ms, and paces at 2.25 times that. */
  ghost predicate Paced(s: Bbr) {
    && s.mode == Startup && !s.search.atFullBandwidth && s.detectOvershooting
    && s.bytesLostWhileDetectingOvershooting == 0 && s.hasNoAppLimitedSample && !s.exitingQuiescence
    && s.pacingRate == 900_000 && s.roundTripCount == 1
    && s.maxBandwidth == WF.Estimates(WF.Estimate(400_000, 1), WF.Estimate(400_000, 1), WF.Estimate(400_000, 1))
    && s.minRtt == 20_000_000 && s.minRttTimestamp == T1 && s.currentRoundTripEnd == 2
  }

  ghost predicate IsConservative(c: Config) {
    c.maxWindowPackets >= INITIAL_WINDOW_PACKETS &&
        c == ConfigFor(Conservative, c.maxWindowPackets, c.maxPacketBufferSize)
  }

  lemma FirstSampleSetsRate(s: Bbr, c: Config, e: Event)
    requires IsConservative(c) && Started(s, c)
    requires HasSample(e, 400_000, 20_000_000) && e.now == T1 && e.acked == [AckedPacket(0, 1000)] && e.lost == []
    requires e.report.bytesLost == 0
    ensures Paced(OnEvent(s, c, e))
  {
    hide NextCongestionWindow, NextRecoveryWindow, SumAcked, SumLost;
  }

  /** Twelve seconds later the minimum RTT has expired, PROBE_RTT asks for a lower rate, and a
      lost packet counts as overshooting. */
  lemma LossInProbeRttDivides(s: Bbr, c: Config, e: Event)
    requires IsConservative(c) && Paced(s)
    requires HasSample(e, e.report.sampleMaxBandwidth, e.report.sampleRtt) && e.report.sampleMaxBandwidth < 400_000
    requires e.report.sampleRtt != SS.INF_RTT && e.now == T2 && e.acked == [AckedPacket(2, 1000)] && e.lost != []
    requires e.report.bytesLost > 0
    ensures EventDivides(s, c, e)
  {
    hide NextCongestionWindow, NextRecoveryWindow, SumAcked, SumLost;
  }

  // ----- What the sampler reports for them

  /** What is remembered about packet n of three sent one after the other at time T0. */
  function P(n: nat): SS.SentState {
    SS.SentState(T0, 1000, 1000, T0, T0, false, 1000 * (n + 1), 0, 0, 1000 * (n + 1))
  }

  function Three(): Queue<SS.SentState> {
    Queue([Entry(true, P(0)), Entry(true, P(1)), Entry(true, P(2))], 0)
  }

  /** The sampler with the three packets in flight, which measures from the time they were sent. */
  ghost predicate InFlight(s: SS.State, acked: nat, lost: nat) {
    && s.packets == Three() && s.overestimateAvoidance
    && s.totalBytesAcked == acked == s.totalBytesAckedAfterLastAckEvent && s.totalBytesLost == lost
    && s.candidates != [] && SS.Choice(s.candidates, 0) == SS.AckPoint(T0, 0)
  }

  /** One acknowledgement's sample. */
  lemma AckSample(s: SS.State, ackTime: nat, n: nat, acked: nat, lost: nat)
    requires s.Inv() && InFlight(s, acked, lost) && n < 3 && ackTime > T0
    ensures var (s', sample) := SS.PacketAcked(s, ackTime, n);
            && sample == SS.Sample(Min(SS.INF_BANDWIDTH, SS.BandwidthFromDelta(acked + 1000, ackTime - T0)),
                                   ackTime - T0, SS.INF_BANDWIDTH, Some(P(n)))
            && s'.totalBytesAcked == acked + 1000 && s'.totalBytesLost == lost
            && s'.overestimateAvoidance && s'.packets == s.packets
            && s'.totalBytesAckedAfterLastAckEvent == acked
            && s'.recent == s.recent.Update(ackTime, acked + 1000)
            && s'.candidates == SS.Pruned(s.candidates, 0) && s'.tracker == s.tracker
  {
    hide SS.PacketsOk, SS.PointsOk, SS.Choice, SS.Pruned, SS.BandwidthFromDelta;
    assert s.Packet(n) == Some(P(n));
  }

  /** The loss of packet 1, or of none, and what is known of it. */
  lemma Loses(s: SS.State, lost: seq<SS.Lost>, acked: nat, before: nat)
    requires InFlight(s, acked, before) && (lost == [] || lost == [SS.Lost(1, 1000)])
    ensures SS.LoseAll(s, lost, None) ==
              if lost == [] then (s, None) else (s.(totalBytesLost := before + 1000), Some(P(1)))
  {
    hide SS.Choice;
    if lost != [] {
      assert s.Packet(1) == Some(P(1));
      assert lost[1..] == [];
    }
  }

  /** The sampler's report on an event that acknowledges packet n alone. */
  lemma AckReport(s: SS.State, ackTime: nat, n: nat, lost: seq<SS.Lost>, maxBandwidth: nat, round: nat, acked: nat,
                  before: nat)
    requires s.Inv() && InFlight(s, acked, before) && n < 3 && ackTime > T0
    requires lost == [] || lost == [SS.Lost(1, 1000)]
    requires SS.BandwidthFromDelta(acked + 1000, ackTime - T0) > 0 && ackTime - T0 < SS.INF_RTT
    ensures var (s', e) := SS.CongestionEvent(s, ackTime, [n], lost, maxBandwidth, SS.INF_BANDWIDTH, false, round);
            && e.sampleMaxBandwidth == Min(SS.INF_BANDWIDTH, SS.BandwidthFromDelta(acked + 1000, ackTime - T0))
            && !e.sampleIsAppLimited && e.sampleRtt == ackTime - T0
            && e.lastPacketSendState.Some? && !e.lastPacketSendState.value.isAppLimited
            && s'.totalBytesAcked == acked + 1000 && s'.totalBytesLost == before + (if lost == [] then 0 else 1000)
            && s'.packets == s.packets && s'.overestimateAvoidance
            && s'.totalBytesAckedAfterLastAckEvent == acked + 1000
            && (s.tracker.epochStart == 0 ==>
                  s'.candidates == SS.Pruned(s.candidates, 0) + [s.recent.Update(ackTime, acked + 1000).LessRecent()])
  {
    hide SS.State.Inv, SS.BandwidthFromDelta, SS.PacketAcked, SS.TrackerUpdated, SS.StartsEpoch, InFlight, SS.Pruned,
         SS.RecentAckPoints.Update, SS.RecentAckPoints.LessRecent;
    var (s1, lastLost) := SS.LoseAll(s, lost, None);
    Loses(s, lost, acked, before);
    assert InFlight(s1, acked, s1.totalBytesLost) by { LosingKeepsFlight(s, s1, acked, before); }
    SS.LoseAllOnlyCounts(s, lost, None);
    InvAfterLosing(s, s1);
    FlightTotals(s, acked, before);
    FlightTotals(s1, acked, s1.totalBytesLost);
    AckSample(s1, ackTime, n, acked, s1.totalBytesLost);
    SS.AckedKeepsInv(s1, ackTime, n);
    assert [n as int][1..] == [];
    SS.AckAllKeepsInv(s1, ackTime, [n], SS.NO_EVENT, 0);
    FirstEpoch(s1.tracker);
  }

  lemma FlightTotals(s: SS.State, acked: nat, lost: nat)
    requires InFlight(s, acked, lost)
    ensures s.overestimateAvoidance && s.totalBytesAcked == acked && s.totalBytesLost == lost
  {
  }

  lemma FirstEpoch(t: SS.Tracker)
    ensures t.epochStart == 0 ==>
              forall bandwidth, lastAcked, ackTime :: SS.StartsEpoch(t, bandwidth, lastAcked, ackTime)
  {
  }

  lemma LosingKeepsFlight(s: SS.State, z: SS.State, acked: nat, lost: nat)
    requires InFlight(s, acked, lost) && z == s.(totalBytesLost := z.totalBytesLost)
    ensures InFlight(z, acked, z.totalBytesLost)
  {
    hide SS.Choice;
  }

  lemma InvAfterLosing(s: SS.State, z: SS.State)
    requires s.Inv() && z == s.(totalBytesLost := z.totalBytesLost)
    ensures z.Inv()
  {
    hide SS.PacketsOk, SS.PointsOk;
  }

  // ----- The run

  /** The sampler after the three packets have been sent. */
  ghost predicate AllSent(s: SS.State) {
    && InFlight(s, 0, 0) && s.candidates == [SS.AckPoint(T0, 0)]
    && s.recent == SS.RecentAckPoints(SS.NO_POINT, SS.AckPoint(T0, 0)) && s.tracker.epochStart == 0
  }

  function SendCall(n: nat): Call { Send(T0, 1000 * n, n, 1000, true, 0) }

  const FIRST_ACK := Congestion(3000, T1, [AckedPacket(0, 1000)], [], 0, 0)
  const LATE_ACK := Congestion(2000, T2, [AckedPacket(2, 1000)], [SS.Lost(1, 1000)], 0, 0)

  /** The sampler after n packets have been sent. */
  ghost predicate SomeSent(s: SS.State, n: nat) {
    && n <= 3 && s.packets == Queue(Three().slots[..n], if n == 0 then INVALID_PACKET_NUMBER else 0)
    && s.overestimateAvoidance && s.totalBytesSent == 1000 * n && !s.isAppLimited
    && s.totalBytesAcked == 0 == s.totalBytesAckedAfterLastAckEvent && s.totalBytesLost == 0
    && s.tracker.epochStart == 0
    && (n > 0 ==>
          && s.candidates == [SS.AckPoint(T0, 0)] && s.recent == SS.RecentAckPoints(SS.NO_POINT, SS.AckPoint(T0, 0))
          && s.lastAckedPacketSentTime == T0 == s.lastAckedPacketAckTime && s.totalBytesSentAtLastAckedPacket == 1000)
  }

  lemma SendOne(s: SS.State, n: nat)
    requires SomeSent(s, n) && n < 3 && s.packets.Valid()
    ensures SomeSent(SS.PacketSent(s, T0, n, 1000, 1000 * n, true), n + 1)
  {
    hide Queue.AsMap;
    assert Blanks(0, SS.NO_STATE) == [];
    var z := SS.PacketSent(s, T0, n, 1000, 1000 * n, true);
    assert s.packets.Last() == n as int - 1;
    assert Three().slots[..n + 1] == Three().slots[..n] + [Entry(true, P(n))];
    assert z.packets.slots == Three().slots[..n + 1];
  }

  lemma AllThreeSent(s: SS.State)
    requires SomeSent(s, 3)
    ensures AllSent(s)
  {
    assert Three().slots[..3] == Three().slots;
    assert SS.ChoiceFrom(s.candidates, 1, 0) == 0;
  }

  /** A new sender with the conservative profile that sends three packets. */
  lemma SendingRun(c: Config, size: int, pacerSize: nat, delay: nat) returns (ws: seq<Whole>, calls: seq<Call>)
    requires IsConservative(c) && size > 0
    ensures IsWholeRun(ws, c, calls) && |calls| == 3 && forall a :: a in calls ==> a.Send? && a.statsMinRtt == 0
    ensures ws[3].clock == T0 && Started(ws[3].b, c) && AllSent(ws[3].sampler)
  {
    hide IsWholeRun, WholeInv, SomeSent, SamplerOk, BandwidthForPacer;
    ws, calls := [NewWhole(c, size, pacerSize, delay)], [];
    NewWholeRun(c, size, pacerSize, delay);
    WholeRunLength(ws, c, calls);
    assert SomeSent(ws[0].sampler, 0) by { NothingSent(c); }
    for n := 0 to 3
      invariant |calls| == n && |ws| == n + 1 && IsWholeRun(ws, c, calls)
      invariant forall a :: a in calls ==> a.Send? && a.statsMinRtt == 0
      invariant SomeSent(ws[n].sampler, n) && ws[n].clock == (if n == 0 then 0 else T0)
      invariant StartedButFor(ws[n].b, c) && ws[n].b.lastSentPacket == n - 1
    {
      var w, a := ws[n], SendCall(n);
      LongerWholeRun(ws, c, calls, a);
      SamplerHasQueue(w.sampler, w.clock);
      SendOne(w.sampler, n);
      ws, calls := ws + [Next(w, c, a)], calls + [a];
    }
    AllThreeSent(ws[3].sampler);
  }

  ghost predicate StartedButFor(s: Bbr, c: Config) { Started(s.(lastSentPacket := 2), c) }

  lemma NothingSent(c: Config)
    requires IsConservative(c)
    ensures SomeSent(StartSampler(c), 0)
  {
    assert Three().slots[..0] == [];
  }

  lemma SamplerHasQueue(s: SS.State, clock: nat)
    requires SamplerOk(s, clock)
    ensures s.packets.Valid() && s.Inv()
  {
  }

  /** A sampler that is told about the application keeps what it measures from. */
  lemma LimitKeepsFlight(s: SS.State, b: Bbr, priorInFlight: int, acked: nat, lost: nat)
    requires s.Inv() && InFlight(s, acked, lost)
    ensures var z := MaybeAppLimited(s, b, priorInFlight, 0);
            && InFlight(z, acked, lost) && z.candidates == s.candidates
            && z.recent == s.recent && z.tracker == s.tracker
  {
    hide SS.PacketsOk, SS.PointsOk, SS.Choice, Target;
  }

  /** The bandwidths of the two samples. */
  lemma Bandwidths()
    ensures SS.BandwidthFromDelta(1000, T1 - T0) == 400_000
    ensures 0 < SS.BandwidthFromDelta(2000, T2 - T0) < 400_000
  {
  }

  /** The events that the sampler makes of the two calls. */
  lemma ReportOfCall(s: SS.State, b: Bbr, a: Call, acked: nat)
    requires (a == FIRST_ACK && acked == 0) || (a == LATE_ACK && acked == 1000)
    requires SamplerOk(s, a.now) && InFlight(s, acked, 0)
    ensures HasSample(EventOf(s, b, a), SS.BandwidthFromDelta(acked + 1000, a.now - T0), a.now - T0)
    ensures EventOf(s, b, a).report.bytesLost == if a == FIRST_ACK then 0 else 1000
    ensures var z := Sampled(s, b, a).0;
            && z.packets == Three() && z.overestimateAvoidance
            && z.totalBytesLost == (if a == FIRST_ACK then 0 else 1000)
            && z.totalBytesAcked == z.totalBytesAckedAfterLastAckEvent == acked + 1000
            && (s.tracker.epochStart == 0 ==>
                  z.candidates == SS.Pruned(s.candidates, 0) + [s.recent.Update(a.now, acked + 1000).LessRecent()])
  {
    hide SS.State.Inv, SS.CongestionEvent, SS.BandwidthFromDelta, MaybeAppLimited, InFlight, SentBy, SS.Pruned,
         SS.RecentAckPoints.Update, SS.RecentAckPoints.LessRecent;
    Bandwidths();
    var n := a.acked[0].number;
    var s1 := MaybeAppLimited(s, b, a.priorInFlight, 0);
    LimitKeepsFlight(s, b, a.priorInFlight, acked, 0);
    FlightTotals(s, acked, 0);
    FlightTotals(s1, acked, 0);
    FlightPackets(s1, acked, 0);
    assert Numbers(a.acked) == [n];
    AckReport(s1, a.now, n, a.lost, Bandwidth(b), RoundOf(b, a.acked), acked, 0);
  }

  lemma FlightPackets(s: SS.State, acked: nat, lost: nat)
    requires InFlight(s, acked, lost)
    ensures s.packets == Three()
  {
  }

  /** After the first acknowledgement the sampler measures from the same point. */
  lemma SecondFlight(s: SS.State, b: Bbr, c: Config)
    requires SamplerOk(s, T0) && SamplerOk(s, T1) && AllSent(s)
    ensures InFlight(SamplerAfter(s, b, c, FIRST_ACK), 1000, 0)
  {
    hide SS.State.Inv, SentBy, Sampled, EventOf, CheckResets, EnteredProbeRtt, Queue.AsMap;
    ReportOfCall(s, b, FIRST_ACK, 0);
    var z := Sampled(s, b, FIRST_ACK).0;
    assert SS.Pruned(s.candidates, 0) == s.candidates;
    assert z.candidates == [SS.AckPoint(T0, 0), SS.AckPoint(T1, 1000)];
    assert SS.ChoiceFrom(z.candidates, 1, 0) == 0;
    assert RemovedUpTo(Three(), -2) == Three();
  }

  lemma AfterFirstAck(w: Whole, c: Config)
    requires IsConservative(c) && WholeInv(w, c) && w.clock == T0 && w.b.maxDatagramSize > 0
    requires SamplerOk(w.sampler, w.clock) && w.pacer.lastSentTime <= w.clock
    requires Started(w.b, c) && AllSent(w.sampler)
    ensures var z := Next(w, c, FIRST_ACK); Paced(z.b) && InFlight(z.sampler, 1000, 0) && z.clock == T1
  {
    hide WholeInv, SamplerOk, OnEvent, EventOf, SamplerAfter, Started, Paced, HasSample, InFlight,
         SS.BandwidthFromDelta, ConfigFor;
    SamplerLater(w.sampler, T0, T1);
    NextIs(w, c, FIRST_ACK);
    assert InFlight(w.sampler, 0, 0);
    ReportOfCall(w.sampler, w.b, FIRST_ACK, 0);
    Bandwidths();
    FirstSampleSetsRate(w.b, c, EventOf(w.sampler, w.b, FIRST_ACK));
    SecondFlight(w.sampler, w.b, c);
  }

  lemma SampleOf(e: Event, bandwidth: nat, rtt: nat)
    requires HasSample(e, bandwidth, rtt)
    ensures e.report.sampleMaxBandwidth == bandwidth && e.report.sampleRtt == rtt
  {
  }

  lemma LateAckDivides(w: Whole, c: Config)
    requires IsConservative(c) && SamplerOk(w.sampler, T2) && Paced(w.b) && InFlight(w.sampler, 1000, 0)
    ensures EventDivides(w.b, c, EventOf(w.sampler, w.b, LATE_ACK))
  {
    hide SamplerOk, EventOf, Paced, InFlight, EventDivides, HasSample, SS.BandwidthFromDelta, ConfigFor, Sampled,
         SS.Pruned;
    var e := EventOf(w.sampler, w.b, LATE_ACK);
    ReportOfCall(w.sampler, w.b, LATE_ACK, 1000);
    Bandwidths();
    SampleOf(e, SS.BandwidthFromDelta(2000, T2 - T0), T2 - T0);
    LossInProbeRttDivides(w.b, c, e);
  }

  /** A new sender with the conservative profile can come to the division: it sends three
      packets, the first is acknowledged after 20 ms, and twelve seconds later the third is
      while the second is lost. On this run the RTT statistics never have a sample; the
      sampler's own samples are what the code computes. */
  lemma RunCanDivideByZero(c: Config, size: int, pacerSize: nat, delay: nat) returns (ws: seq<Whole>, calls: seq<Call>)
    requires IsConservative(c) && size > 0
    ensures IsWholeRun(ws, c, calls) && forall a :: a in calls && !a.SetSize? ==> a.statsMinRtt == 0
    ensures Permitted(ws[|calls|], LATE_ACK) && LATE_ACK.statsMinRtt == 0 && SamplerOk(ws[|calls|].sampler, T2)
    ensures EventDivides(ws[|calls|].b, c, EventOf(ws[|calls|].sampler, ws[|calls|].b, LATE_ACK))
  {
    hide IsWholeRun, WholeInv, SamplerOk, EventDivides, EventOf, Started, Paced, AllSent, InFlight;
    ws, calls := SendingRun(c, size, pacerSize, delay);
    WholeRunLength(ws, c, calls);
    LongerWholeRun(ws, c, calls, FIRST_ACK);
    AfterFirstAck(ws[3], c);
    var w := Next(ws[3], c, FIRST_ACK);
    ws, calls := ws + [w], calls + [FIRST_ACK];
    WholeRunsKeepInv(ws, c, calls, 4);
    InvHasSampler(w, c);
    SamplerLater(w.sampler, T1, T2);
    LateAckDivides(w, c);
  }
}
