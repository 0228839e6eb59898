/** Losses, recovery and changes of the datagram size, in numbers
    (internal/congestion/bbr/bbr_sender.go). */
module RecoveryLaws {
  import opened Arithmetic
  import SS = SamplerState
  import opened BbrState
  import opened BbrProofs
  import opened BbrRuns
  import opened ModeLaws

  // ----- Bytes in flight

  function AckedBytes(ps: seq<AckedPacket>): nat { if ps == [] then 0 else ps[0].bytes + AckedBytes(ps[1..]) }

  function LostBytes(ps: seq<SS.Lost>): nat { if ps == [] then 0 else ps[0].bytes + LostBytes(ps[1..]) }

  lemma {:induction false} SumsAckedBytes(ps: seq<AckedPacket>)
    ensures SumAcked(ps) == AckedBytes(ps)
    decreases |ps|
  {
    if |ps| > 1 {
      var n := |ps| - 1;
      SumsAckedBytes(ps[..n]);
      SumsAckedBytes(ps[1..]);
      SumsAckedBytes(ps[1..n]);
      assert ps[..n][1..] == ps[1..n] && ps[1..][..n - 1] == ps[1..n];
    }
  }

  lemma {:induction false} SumsLostBytes(ps: seq<SS.Lost>)
    ensures SumLost(ps) == LostBytes(ps)
    decreases |ps|
  {
    if |ps| > 1 {
      var n := |ps| - 1;
      SumsLostBytes(ps[..n]);
      SumsLostBytes(ps[1..]);
      SumsLostBytes(ps[1..n]);
      assert ps[..n][1..] == ps[1..n] && ps[1..][..n - 1] == ps[1..n];
    }
  }

  /** What was in flight before an event is acked, lost, or still in flight. */
  lemma InFlightIsConserved(s: Bbr, c: Config, e: Event)
    requires c.highGain != 0.0
    ensures OnEvent(s, c, e).bytesInFlight + AckedBytes(e.acked) + LostBytes(e.lost) == e.priorInFlight
  {
    hide Moded, Sized, CountRound, UpdateRecovery, TakeReport, UpdateMinRtt, CountLosses, SumAcked, SumLost,
        IsRoundStart, MinRttExpired;
    SumsAckedBytes(e.acked);
    SumsLostBytes(e.lost);
  }

  // ----- Recovery

  /** The recovery state after an event with acknowledgements at full bandwidth: conservation from
      the first loss to the end of a round, then growth, until a packet sent after the last
      loss is acked. */
  function NextRecovery(s: Bbr, e: Event): RecoveryState
    requires e.acked != []
  {
    var last := e.acked[|e.acked| - 1].number;
    if s.recoveryState == NotInRecovery then (if e.lost != [] then Conservation else NotInRecovery)
    else if e.lost == [] && last > s.endRecoveryAt then NotInRecovery
    else if PassesEnd(s, e) then Growth else s.recoveryState
  }

  lemma AcknowledgedIs(s: Bbr, e: Event)
    ensures var a := Acknowledged(s, e);
            if e.acked == [] || !s.search.atFullBandwidth then
              && a.recoveryState == s.recoveryState && a.recoveryWindow == s.recoveryWindow
              && a.currentRoundTripEnd == (if PassesEnd(s, e) then s.lastSentPacket else s.currentRoundTripEnd)
            else
              var starts := s.recoveryState == NotInRecovery && e.lost != [];
              && a.recoveryState == NextRecovery(s, e)
              && a.recoveryWindow == (if starts then 0 else s.recoveryWindow)
              && a.currentRoundTripEnd ==
                 (if starts || PassesEnd(s, e) then s.lastSentPacket else s.currentRoundTripEnd)
  {
    hide SumAcked, SumLost;
  }

  /** The recovery window after an event in recovery that acked and lost so many bytes: a new one
      is what is in flight and the bytes acked; otherwise it loses the bytes lost, gains the
      bytes acked once it grows, and always covers what is in flight and the bytes acked. */
  predicate IsRecoveryWindow(w: int, old_: int, z: Bbr, acked: nat, lost: nat) {
    var room := z.bytesInFlight + acked;
    if old_ == 0 then w == Max(z.minCongestionWindow, room)
    else
      var kept := (if old_ >= lost then old_ - lost else z.maxDatagramSize)
          + (if z.recoveryState == Growth then acked else 0);
      && w >= z.minCongestionWindow && w >= room && w >= kept
      && (w == z.minCongestionWindow || w == room || w == kept)
  }

  lemma NextRecoveryWindowIs(p: Bbr, rep: Report)
    ensures IsRecoveryWindow(NextRecoveryWindow(p, rep), p.recoveryWindow, p, rep.bytesAcked, rep.bytesLost)
  {
  }

  lemma MeasuredRecovery(s: Bbr, e: Event)
    ensures var m, a := Measured(s, e), Acknowledged(s, e);
            && m.recoveryState == a.recoveryState && m.recoveryWindow == a.recoveryWindow
            && m.currentRoundTripEnd == a.currentRoundTripEnd
  {
    hide Acknowledged, TakeReport, UpdateMinRtt, CountLosses;
  }

  lemma ModedRecovery(m: Bbr, c: Config, e: Event, rs: bool, old_: bool)
    requires c.highGain != 0.0
    ensures var u := Moded(m, c, e, rs, old_); KeepsWindows(m, u) && KeepsRound(m, u) && KeepsLimits(m, u)
  {
    hide BeforeProbeRtt, EnterOrExitProbeRtt;
  }

  lemma SizedRecovery(u: Bbr, c: Config, e: Event, rs: bool)
    ensures var z := Sized(u, c, e, rs);
            && z.recoveryState == u.recoveryState && KeepsRound(u, z) && KeepsLimits(u, z)
            && if z.recoveryState == NotInRecovery then z.recoveryWindow == u.recoveryWindow
               else IsRecoveryWindow(z.recoveryWindow, u.recoveryWindow, z, e.report.bytesAcked, e.report.bytesLost)
  {
    hide UpdatePacingRate, UpdateWindow, NextRecoveryWindow;
    var p := UpdateWindow(UpdatePacingRate(u, c, e.report.bytesLost, e.statsMinRtt), c, e.report, e.statsMinRtt);
    NextRecoveryWindowIs(p, e.report);
  }

  /** Recovery after an event. */
  lemma RecoveryAfterEvent(s: Bbr, c: Config, e: Event)
    requires c.highGain != 0.0
    ensures var z := OnEvent(s, c, e);
            var starts := e.acked != [] && e.lost != [] && s.search.atFullBandwidth && s.recoveryState == NotInRecovery;
            && z.recoveryState ==
               (if e.acked == [] || !s.search.atFullBandwidth then s.recoveryState else NextRecovery(s, e))
            && z.currentRoundTripEnd ==
               (if starts || PassesEnd(s, e) then s.lastSentPacket else s.currentRoundTripEnd)
            && if z.recoveryState == NotInRecovery then z.recoveryWindow == s.recoveryWindow
               else IsRecoveryWindow(z.recoveryWindow, if starts then 0 else s.recoveryWindow, z,
                                     e.report.bytesAcked, e.report.bytesLost)
  {
    hide Measured, Moded, Sized, Acknowledged, IsRecoveryWindow, MinRttExpired, IsRoundStart;
    var m, rs, old_ := Measured(s, e), IsRoundStart(s, e), MinRttExpired(s, e.now, e.report);
    AcknowledgedIs(s, e);
    MeasuredRecovery(s, e);
    ModedRecovery(m, c, e, rs, old_);
    SizedRecovery(Moded(m, c, e, rs, old_), c, e, rs);
  }

  // ----- Losses in a round

  lemma MeasuredLosses(s: Bbr, e: Event)
    ensures var m := Measured(s, e);
            && m.numLossEventsInRound == s.numLossEventsInRound + (if e.lost != [] then 1 else 0)
            && m.bytesLostInRound == s.bytesLostInRound + (if e.lost != [] then e.report.bytesLost else 0)
  {
    hide UpdateRecovery, SumAcked, SumLost, TakeReport, UpdateMinRtt;
    AcknowledgedLosses(s, e);
    TakenLosses(Acknowledged(s, e), e);
  }

  lemma AcknowledgedLosses(s: Bbr, e: Event)
    ensures Acknowledged(s, e).numLossEventsInRound == s.numLossEventsInRound
    ensures Acknowledged(s, e).bytesLostInRound == s.bytesLostInRound
  {
    hide SumAcked, SumLost;
  }

  lemma TakenLosses(a: Bbr, e: Event)
    ensures var u := UpdateMinRtt(TakeReport(a, e.report), e.now, e.report);
            u.numLossEventsInRound == a.numLossEventsInRound && u.bytesLostInRound == a.bytesLostInRound
  {
  }

  /** Eight events or more of the round had losses, and more than a fiftieth was lost of what was
      in flight when the last packet of the event was sent. */
  predicate LosesTooMuch(events: nat, bytes: nat, rep: Report) {
    && events >= 8 && bytes > 0 && rep.lastPacketSendState.Some?
    && rep.lastPacketSendState.value.bytesInFlight > 0
    && 50 * bytes > rep.lastPacketSendState.value.bytesInFlight
  }

  /** Whether losses end STARTUP: this event's losses are counted. */
  lemma TooManyLossesIs(s: Bbr, e: Event)
    ensures TooManyLosses(Measured(s, e), e.report) <==>
              LosesTooMuch(s.numLossEventsInRound + (if e.lost != [] then 1 else 0),
                           s.bytesLostInRound + (if e.lost != [] then e.report.bytesLost else 0), e.report)
  {
    hide Measured;
    MeasuredLosses(s, e);
    if e.report.lastPacketSendState.Some? { FiftiethIs(e.report.lastPacketSendState.value.bytesInFlight); }
  }

  lemma FiftiethIs(n: int)
    ensures n > 0 ==> forall b: nat :: b > SS.Truncate(n as real * LOSS_THRESHOLD) <==> 50 * b > n
  {
    if n > 0 {
      var q, r := n / 50, n % 50;
      assert n as real * 0.02 == q as real + r as real * 0.02;
      assert SS.Truncate(n as real * LOSS_THRESHOLD) == q;
    }
  }

  lemma SizedLosses(u: Bbr, c: Config, e: Event, rs: bool)
    ensures var z := Sized(u, c, e, rs);
            && z.numLossEventsInRound == (if rs then 0 else u.numLossEventsInRound)
            && z.bytesLostInRound == (if rs then 0 else u.bytesLostInRound)
  {
    hide UpdatePacingRate, UpdateWindow, UpdateRecoveryWindow;
  }

  /** A round's start forgets the losses before it. */
  lemma LossesAfterEvent(s: Bbr, c: Config, e: Event)
    requires c.highGain != 0.0
    ensures var z := OnEvent(s, c, e);
            if PassesEnd(s, e) then z.numLossEventsInRound == 0 && z.bytesLostInRound == 0
            else
              && z.numLossEventsInRound == s.numLossEventsInRound + (if e.lost != [] then 1 else 0)
              && z.bytesLostInRound == s.bytesLostInRound + (if e.lost != [] then e.report.bytesLost else 0)
  {
    hide Measured, Moded, Sized, MinRttExpired;
    var m, rs, old_ := Measured(s, e), IsRoundStart(s, e), MinRttExpired(s, e.now, e.report);
    MeasuredLosses(s, e);
    SizedLosses(Moded(m, c, e, rs, old_), c, e, rs);
  }

  // ----- What may be sent

  /** The window a sender keeps to: in PROBE_RTT the minimum, in recovery neither of its windows is
      exceeded and one is used up, else it is the congestion window. */
  lemma WindowInUse(s: Bbr)
    ensures var w := GetCongestionWindow(s);
            if s.mode == ProbeRtt then w == s.minCongestionWindow
            else if s.recoveryState == NotInRecovery then w == s.congestionWindow
            else
              && w <= s.congestionWindow && w <= s.recoveryWindow
              && (w == s.congestionWindow || w == s.recoveryWindow)
    ensures forall n :: CanSend(s, n) <==> n + 1 <= GetCongestionWindow(s)
  {
  }

  /** The smallest pacing window is that of 32 datagrams in every reachable state. */
  lemma {:induction false} PacingWindowOfRun(states: seq<Bbr>, c: Config, actions: seq<Action>, i: nat)
    requires c.Valid() && IsRun(states, c, actions) && i < |states|
    ensures states[i].cwndToCalculateMinPacingRate == 32 * states[i].maxDatagramSize
  {
    hide OnEvent, Rescale, ModeInv;
    if i > 0 {
      PacingWindowOfRun(states, c, actions, i - 1);
      RunStep(states, c, actions, i - 1);
      var s := states[i - 1];
      match actions[i - 1]
      case Acked(e) => EventKeepsPacingWindow(s, c, e);
      case Sent(_, _) =>
      case Resize(size) => RescaleExact(32, s.maxDatagramSize, size);
    }
  }

  lemma EventKeepsPacingWindow(s: Bbr, c: Config, e: Event)
    requires c.highGain != 0.0
    ensures OnEvent(s, c, e).cwndToCalculateMinPacingRate == s.cwndToCalculateMinPacingRate
    ensures OnEvent(s, c, e).maxDatagramSize == s.maxDatagramSize
  {
    hide Measured, Moded, UpdateWindow, UpdateRecoveryWindow, SS.BandwidthFromDelta, TargetRate, Overshoots,
        IsRoundStart, MinRttExpired;
  }

  /** In numbers: a window of four datagrams stays one of four, one of 32 stays one of 32, and any
      other keeps its bytes within the new limits. */
  lemma ResizedIs(s: Bbr, c: Config, size: int)
    requires c.Valid() && WindowInv(s, c) && size >= s.maxDatagramSize
    ensures var z, w := Resized(s, size), s.congestionWindow;
            && z.minCongestionWindow == 4 * size && z.initialCongestionWindow == 32 * size
            && z.maxCongestionWindow == c.maxWindowPackets * size
            && z.congestionWindow == (if w == 4 * s.maxDatagramSize then 4 * size
                                      else if w == 32 * s.maxDatagramSize then 32 * size else Max(w, 4 * size))
            && z.recoveryWindow == Min(c.maxWindowPackets * size, Max(s.recoveryWindow, 4 * size))
  {
    hide Rescale;
    RescaleExact(32, s.maxDatagramSize, size);
    RescaleExact(c.maxWindowPackets, s.maxDatagramSize, size);
    MulMonotone(32, c.maxWindowPackets, size);
    assert c.maxWindowPackets * s.maxDatagramSize <= c.maxWindowPackets * size by {
      MulMonotone(s.maxDatagramSize, size, c.maxWindowPackets);
      assert size * c.maxWindowPackets == c.maxWindowPackets * size;
      assert s.maxDatagramSize * c.maxWindowPackets == c.maxWindowPackets * s.maxDatagramSize;
    }
  }

  /** A more aggressive profile has larger gains and waits for more rounds without growth; only the
      cautious one drains to its target, watches for overshooting and distrusts fast acks. The
      standard gain is 2 / ln 2 up to a thousandth. */
  lemma ProfilesInOrder(maxWindowPackets: nat, maxPacketBufferSize: nat)
    ensures var a, b, c := ConfigFor(Conservative, maxWindowPackets, maxPacketBufferSize),
                ConfigFor(Standard, maxWindowPackets, maxPacketBufferSize),
                ConfigFor(Aggressive, maxWindowPackets, maxPacketBufferSize);
            && 2.0 < a.highGain < b.highGain < c.highGain <= 3.0 && 2.8844 < b.highGain < 2.8864
            && 1.0 < a.highCwndGain < b.highCwndGain < c.highCwndGain
            && 1.0 < a.windowGain < b.windowGain < c.windowGain
            && 1 < a.numStartupRtts < b.numStartupRtts < c.numStartupRtts
            && (a.drainToTarget && !b.drainToTarget && !c.drainToTarget)
            && (a.detectOvershooting && !b.detectOvershooting && !c.detectOvershooting)
            && (a.overestimateAvoidance && !b.overestimateAvoidance && !c.overestimateAvoidance)
            && (a.reduceExtraAcked && !b.reduceExtraAcked && !c.reduceExtraAcked)
            && (!a.ackAggregationInStartup && !b.ackAggregationInStartup && c.ackAggregationInStartup)
            && (!a.expireAckAggregationInStartup && !b.expireAckAggregationInStartup && c.expireAckAggregationInStartup)
            && a.bytesLostMultiplier == 1 && b.bytesLostMultiplier == c.bytesLostMultiplier == 2
  {
  }
}
