/** Runs of the whole sender with any number of rounds: one packet sent and acknowledged after
    the other (internal/congestion/bbr/bbr_sender.go). */
module BbrRounds {
  import opened PacketQueue
  import SS = SamplerState
  import opened BbrState
  import opened BbrProofs
  import opened BbrRuns
  import opened BbrGrowth
  import opened BbrWhole

  const RTT := 1000
  const RATE := 8_000_000_000

  /** After n rounds nothing is in flight, and no sample was limited by the application. */
  ghost predicate Steady(w: Whole, n: nat) {
    && w.b.lastSentPacket == n - 1 == w.b.currentRoundTripEnd && w.b.mode != ProbeRtt && Bandwidth(w.b) <= RATE
    && !w.sampler.isAppLimited && !w.sampler.overestimateAvoidance
    && w.sampler.packets.Valid() && w.sampler.packets.Last() < n
  }

  function SendNext(w: Whole, n: nat): Call { Send(w.clock + 1, 0, n, 1000, true, 1) }

  function AckNext(w: Whole, n: nat): Call {
    Congestion(Target(w.b, 1, 1.0), w.clock + RTT, [AckedPacket(n, 1000)], [], 1, 0)
  }

  /** The packet is in flight. */
  ghost predicate InFlight(s: SS.State, n: nat, clock: nat) {
    && !s.isAppLimited && !s.overestimateAvoidance && s.packets.Last() == n
    && s.Packet(n).Some? && clock > 0
    && var p := s.Packet(n).value;
       && p.size == 1000 && !p.isAppLimited && p.sentTime == clock && p.lastAckedPacketSentTime == clock
       && p.lastAckedPacketAckTime == clock && p.totalBytesAcked == s.totalBytesAcked
  }

  lemma SendOne(s: SS.State, n: nat, t: nat)
    requires s.packets.Valid() && s.packets.Last() < n && !s.isAppLimited && !s.overestimateAvoidance && t > 0
    ensures InFlight(SS.PacketSent(s, t, n, 1000, 0, true), n, t)
  {
    hide Queue.AsMap;
    var z := SS.PacketSent(s, t, n, 1000, 0, true);
    assert z.packets.Has(n) && z.packets.Last() == n;
  }

  /** Its acknowledgement's sample. */
  lemma AckOne(s: SS.State, n: nat, t: nat)
    requires s.Inv() && InFlight(s, n, t)
    ensures var (z, sample) := SS.PacketAcked(s, t + RTT, n);
            && sample.bandwidth == RATE && sample.rtt == RTT && sample.sendRate == SS.INF_BANDWIDTH
            && sample.stateAtSend == s.Packet(n) && z.totalBytesAcked == s.totalBytesAcked + 1000
            && z.packets == s.packets && !z.isAppLimited && !z.overestimateAvoidance
            && z.totalBytesAckedAfterLastAckEvent == s.totalBytesAckedAfterLastAckEvent
  {
    hide SS.PacketsOk, SS.PointsOk, SS.Choice, SS.Pruned;
    assert SS.BandwidthFromDelta(1000, RTT) == RATE;
    hide SS.BandwidthFromDelta;
  }

  /** The sampler's report on it. */
  lemma AckReport(s: SS.State, n: nat, t: nat, maxBandwidth: nat, round: nat)
    requires s.Inv() && InFlight(s, n, t)
    ensures var (z, e) := SS.CongestionEvent(s, t + RTT, [n], [], maxBandwidth, SS.INF_BANDWIDTH, false, round);
            && e.sampleMaxBandwidth == RATE && !e.sampleIsAppLimited && e.sampleRtt == RTT
            && e.lastPacketSendState == s.Packet(n) && z.totalBytesAcked == s.totalBytesAcked + 1000
            && z.packets == s.packets && !z.isAppLimited && !z.overestimateAvoidance
  {
    hide SS.State.Inv, SS.BandwidthFromDelta, SS.PacketAcked, SS.TrackerUpdated, SS.StartsEpoch, InFlight;
    AckOne(s, n, t);
    SentStateIsFree(s, n, t);
    SS.AckedKeepsInv(s, t + RTT, n);
    assert [n as int][1..] == [];
    SS.AckAllKeepsInv(s, t + RTT, [n], SS.NO_EVENT, 0);
  }

  lemma SentStateIsFree(s: SS.State, n: nat, t: nat)
    requires InFlight(s, n, t)
    ensures s.Packet(n).Some? && !s.Packet(n).value.isAppLimited
  {
  }

  /** The event starts a round, is not limited by the application, and sees the rate. */
  lemma EventIsFresh(b: Bbr, c: Config, e: Event, n: nat)
    requires c.Valid() && b.lastSentPacket == n && b.currentRoundTripEnd == n - 1 && b.mode != ProbeRtt
    requires b.exitingQuiescence && Bandwidth(b) <= RATE
    requires e.acked == [AckedPacket(n, 1000)] && e.lost == [] && e.report.sampleMaxBandwidth == RATE
    requires !e.report.sampleIsAppLimited && e.report.bytesAcked == 1000
    requires e.report.lastPacketSendState.Some? && !e.report.lastPacketSendState.value.isAppLimited
    ensures StartsFreshRound(b, Acked(e)) && Bandwidth(Measured(b, e)) == RATE
    ensures var z := OnEvent(b, c, e);
            && z.lastSentPacket == n == z.currentRoundTripEnd && z.mode != ProbeRtt && Bandwidth(z) == RATE
  {
    hide OnEvent, Moded, Sized, UpdateMinRtt, CountLosses, SumAcked, SumLost;
    EventRound(b, c, e);
    MeasuredRate(b, e);
    EventAvoidsProbeRtt(b, c, e);
    EventKeepsRate(b, c, e);
  }

  lemma MeasuredRate(b: Bbr, e: Event)
    requires Bandwidth(b) <= RATE && e.report.sampleMaxBandwidth == RATE && !e.report.sampleIsAppLimited
    requires e.report.bytesAcked > 0
    requires e.report.lastPacketSendState.Some? && !e.report.lastPacketSendState.value.isAppLimited
    ensures Bandwidth(Measured(b, e)) == RATE && !Measured(b, e).lastSampleIsAppLimited
  {
    hide Acknowledged;
  }

  lemma EventKeepsRate(b: Bbr, c: Config, e: Event)
    requires c.Valid()
    ensures Bandwidth(OnEvent(b, c, e)) == Bandwidth(Measured(b, e))
  {
    hide Measured, Moded, Sized, IsRoundStart, MinRttExpired;
  }

  /** PROBE_RTT is not entered right after a quiet phase. */
  lemma EventAvoidsProbeRtt(b: Bbr, c: Config, e: Event)
    requires c.Valid() && b.mode != ProbeRtt && b.exitingQuiescence
    ensures OnEvent(b, c, e).mode != ProbeRtt
    ensures EnteredProbeRtt(Measured(b, e), MinRttExpired(b, e.now, e.report)).mode != ProbeRtt
  {
    hide Measured, UpdateCycle, CheckFullBandwidth, Target, StartOffset, Sized, IsRoundStart, MinRttExpired;
  }

  // ----- One round

  lemma {:induction false} RemovingKeepsLast(q: Queue<SS.SentState>, m: int)
    requires q.slots == [] || q.first >= 0
    ensures RemovedUpTo(q, m).Last() <= q.Last()
    decreases |q.slots|
  {
    hide Queue.AsMap;
    if q.slots != [] && q.first < m {
      RemovingKeepsLast(Queue(q.slots[1..], q.first + 1), m);
    } else {
      ClearUpKeepsMap(q);
    }
  }

  /** What the acknowledgement leaves of the sampler. */
  lemma AckLeaves(s: SS.State, b: Bbr, c: Config, a: Call, n: nat, t: nat)
    requires c.Valid() && a == Congestion(Target(b, 1, 1.0), t + RTT, [AckedPacket(n, 1000)], [], 1, 0)
    requires SamplerOk(s, a.now) && InFlight(s, n, t) && b.mode != ProbeRtt && b.exitingQuiescence
    ensures var e := EventOf(s, b, a);
            && e.report.sampleMaxBandwidth == RATE && !e.report.sampleIsAppLimited && e.report.bytesAcked == 1000
            && e.report.lastPacketSendState.Some? && !e.report.lastPacketSendState.value.isAppLimited
    ensures var z := SamplerAfter(s, b, c, a);
            !z.isAppLimited && !z.overestimateAvoidance && z.packets.Valid() && z.packets.Last() <= n
  {
    hide SS.State.Inv, SS.CongestionEvent, InFlight, Target, CheckResets, EnteredProbeRtt, Measured, IsRoundStart,
         MinRttExpired, SentBy;
    AckReport(s, n, t, Bandwidth(b), RoundOf(b, a.acked));
    SentStateIsFree(s, n, t);
    assert Numbers(a.acked) == [n];
    EventAvoidsProbeRtt(b, c, EventOf(s, b, a));
    InvHasQueue(s);
    FlightLast(s, n, t);
    RemovingKeepsLast(s.packets, LeastUnacked(a));
    InvHasQueue(SamplerAfter(s, b, c, a));
  }

  lemma FlightLast(s: SS.State, n: nat, t: nat)
    requires InFlight(s, n, t)
    ensures s.packets.Last() == n && (s.packets.Valid() ==> s.packets.slots == [] || s.packets.first >= 0)
    ensures !s.isAppLimited && !s.overestimateAvoidance
  {
  }

  lemma SendStep(w: Whole, c: Config, n: nat)
    requires c.Valid() && WholeInv(w, c) && Steady(w, n)
    ensures Permitted(w, SendNext(w, n)) && w.b.maxDatagramSize > 0
    ensures SamplerOk(w.sampler, w.clock) && w.pacer.lastSentTime <= w.clock
    ensures var z := Next(w, c, SendNext(w, n));
            && InFlight(z.sampler, n, z.clock) && z.b.lastSentPacket == n && z.b.currentRoundTripEnd == n - 1
            && z.b.mode != ProbeRtt && z.b.exitingQuiescence && Bandwidth(z.b) <= RATE
            && ActionOf(w, SendNext(w, n)).Sent?
  {
    hide WholeInv, Next, SamplerOk, InFlight, BandwidthForPacer, SS.PacketSent;
    NextIs(w, c, SendNext(w, n));
    SendOne(w.sampler, n, w.clock + 1);
  }

  lemma AckStep(w: Whole, c: Config, n: nat)
    requires c.Valid() && WholeInv(w, c) && InFlight(w.sampler, n, w.clock)
    requires w.b.lastSentPacket == n && w.b.currentRoundTripEnd == n - 1 && w.b.mode != ProbeRtt
    requires w.b.exitingQuiescence && Bandwidth(w.b) <= RATE
    ensures Permitted(w, AckNext(w, n)) && w.b.maxDatagramSize > 0
    ensures SamplerOk(w.sampler, w.clock) && w.pacer.lastSentTime <= w.clock
    ensures Steady(Next(w, c, AckNext(w, n)), n + 1)
    ensures var act := ActionOf(w, AckNext(w, n));
            act.Acked? && StartsFreshRound(w.b, act) && Bandwidth(Measured(w.b, act.event)) > 0
  {
    hide WholeInv, Next, SamplerOk, InFlight, Target, OnEvent, EventOf, SamplerAfter, StartsFreshRound, Measured;
    var a := AckNext(w, n);
    NextIs(w, c, a);
    SamplerLater(w.sampler, w.clock, a.now);
    AckLeaves(w.sampler, w.b, c, a, n, w.clock);
    EventIsFresh(w.b, c, EventOf(w.sampler, w.b, a), n);
  }

  // ----- Any number of rounds

  lemma NewIsSteady(c: Config)
    requires c.Valid() && !c.overestimateAvoidance
    ensures Steady(NewWhole(c, 1, 1, 0), 0)
  {
  }

  /** The actions of a longer run are those of the run and one more. */
  lemma OneMoreCall(ws: seq<Whole>, c: Config, calls: seq<Call>, a: Call)
    requires c.Valid() && IsWholeRun(ws, c, calls) && Permitted(ws[|calls|], a)
    ensures WholeInv(ws[|calls|], c) && ws[|calls|].b.maxDatagramSize > 0
    ensures SamplerOk(ws[|calls|].sampler, ws[|calls|].clock) && ws[|calls|].pacer.lastSentTime <= ws[|calls|].clock
    ensures var w := ws[|calls|];
            var ws', calls' := ws + [Next(w, c, a)], calls + [a];
            && IsWholeRun(ws', c, calls') && Actions(ws', c, calls') == Actions(ws, c, calls) + [ActionOf(w, a)]
            && Machine(ws')[..|ws|] == Machine(ws) && ws'[|ws|] == Next(w, c, a)
  {
    hide WholeInv, Next, Permitted, ActionOf, SamplerOk, IsWholeRun;
    LongerWholeRun(ws, c, calls, a);
    WholeRunLength(ws, c, calls);
  }

  /** What a call adds to the count of fresh rounds. */
  lemma RoundsOneMore(ws: seq<Whole>, c: Config, calls: seq<Call>, a: Call)
    requires c.Valid() && IsWholeRun(ws, c, calls) && SeesBandwidth(ws, c, calls) && Permitted(ws[|calls|], a)
    requires SamplerOk(ws[|calls|].sampler, ws[|calls|].clock)
    requires var w := ws[|calls|]; var act := ActionOf(w, a);
             act.Sent? || (act.Acked? && Bandwidth(Measured(w.b, act.event)) > 0)
    ensures WholeInv(ws[|calls|], c) && ws[|calls|].b.maxDatagramSize > 0
    ensures ws[|calls|].pacer.lastSentTime <= ws[|calls|].clock
    ensures var w := ws[|calls|];
            var ws', calls' := ws + [Next(w, c, a)], calls + [a];
            && IsWholeRun(ws', c, calls') && SeesBandwidth(ws', c, calls')
            && FreshRounds(Machine(ws'), Actions(ws', c, calls')) ==
               FreshRounds(Machine(ws), Actions(ws, c, calls)) +
               if StartsFreshRound(w.b, ActionOf(w, a)) then 1 else 0
  {
    hide IsWholeRun, WholeInv, SamplerOk, Next, ActionOf, Measured, Checks, IsRoundStart, Permitted;
    OneMoreCall(ws, c, calls, a);
    WholeRunLength(ws, c, calls);
    var w := ws[|calls|];
    var ws', calls' := ws + [Next(w, c, a)], calls + [a];
    var actions, actions' := Actions(ws, c, calls), Actions(ws', c, calls');
    assert actions'[..|calls|] == actions && Machine(ws')[..|ws|] == Machine(ws);
    forall i | 0 <= i < |calls'| && ActionChecks(ws'[i].b, actions'[i])
      ensures actions'[i].Acked? && Bandwidth(Measured(ws'[i].b, actions'[i].event)) > 0
    {
      if i < |calls| {
        assert actions'[i] == actions[i] && ws'[i] == ws[i];
      } else {
        assert actions'[i] == ActionOf(w, a);
      }
    }
  }

  /** For every profile without overestimate avoidance and every m there is a run of the whole
      sender with m fresh round starts, whose checks see an estimate. */
  lemma {:induction false} WholeRoundsGoOn(c: Config, m: nat) returns (ws: seq<Whole>, calls: seq<Call>)
    requires c.Valid() && !c.overestimateAvoidance
    ensures IsWholeRun(ws, c, calls) && |ws| == |calls| + 1 && Steady(ws[|calls|], m)
    ensures SeesBandwidth(ws, c, calls) && FreshRounds(Machine(ws), Actions(ws, c, calls)) == m
  {
    hide IsWholeRun, Steady, WholeInv, SamplerOk, Next, ActionOf, StartsFreshRound, ActionChecks, Measured, SendNext,
         AckNext, Permitted;
    if m == 0 {
      ws, calls := [NewWhole(c, 1, 1, 0)], [];
      NewWholeRun(c, 1, 1, 0);
      NewIsSteady(c);
    } else {
      var ws0, calls0 := WholeRoundsGoOn(c, m - 1);
      var k := |calls0|;
      WholeRunsKeepInv(ws0, c, calls0, k);
      SendStep(ws0[k], c, m - 1);
      RoundsOneMore(ws0, c, calls0, SendNext(ws0[k], m - 1));
      SendingIsNoRound(ws0[k].b, ActionOf(ws0[k], SendNext(ws0[k], m - 1)));
      var w1 := Next(ws0[k], c, SendNext(ws0[k], m - 1));
      var ws1, calls1 := ws0 + [w1], calls0 + [SendNext(ws0[k], m - 1)];
      WholeRunsKeepInv(ws1, c, calls1, k + 1);
      AckStep(w1, c, m - 1);
      RoundsOneMore(ws1, c, calls1, AckNext(w1, m - 1));
      ws, calls := ws1 + [Next(w1, c, AckNext(w1, m - 1))], calls1 + [AckNext(w1, m - 1)];
    }
  }

  lemma SendingIsNoRound(s: Bbr, a: Action)
    requires a.Sent?
    ensures !StartsFreshRound(s, a)
  {
  }
}
