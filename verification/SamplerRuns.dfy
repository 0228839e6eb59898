/** The points a bandwidth sampler measures from, over whole runs: discarding candidates
    never changes them (internal/congestion/bbr/bandwidth_sampler.go). */
module SamplerRuns {
  import opened Arithmetic
  import opened Wrappers
  import AH = AckHeight
  import opened SamplerState

  /** A step of a run between two times at which the candidates are cleared. A congestion
      event is its losses, its acknowledged packets in order, and its end. */
  datatype RunStep =
    | Lose(bytes: nat)
    | AckOne(ackTime: nat, number: int)
    | EndEvent(bandwidthEstimate: nat, isNewMaxBandwidth: bool, round: nat)
    | Other(event: Event)

  /** The other operations, as long as they do not start measuring anew. */
  predicate Permitted(e: Event) {
    match e
    case Send(_, _, _, bytesInFlight, isRetransmittable) => bytesInFlight != 0 || !isRetransmittable
    case Congestion(_, _, _, _, _, _, _) => false
    case AvoidOverestimates => false
    case _ => true
  }

  function Stepped(s: State, step: RunStep): (r: State)
    requires s.Inv()
    ensures r.Inv()
  {
    match step
    case Lose(bytes) => s.(totalBytesLost := s.totalBytesLost + bytes)
    case AckOne(ackTime, n) => AckedKeepsInv(s, ackTime, n); PacketAcked(s, ackTime, n).0
    case EndEvent(bw, isNew, round) => AckEventEndKeepsInv(s, bw, isNew, round); AckEventEnd(s, bw, isNew, round).0
    case Other(e) => StepKeepsInv(s, e); Step(s, e)
  }

  /** Whether acknowledging packet n looks for a candidate. */
  predicate Looks(s: State, n: int) {
    s.overestimateAvoidance && s.Packet(n).Some? && s.Packet(n).value.lastAckedPacketSentTime != 0
  }

  function Found(cs: seq<AckPoint>, totalBytesAcked: nat): OptionalPoint {
    if cs == [] then NoPoint else Point(Choice(cs, totalBytesAcked))
  }

  /** The candidates found on a run, in the lists as they are pruned. */
  function Chosen(s: State, steps: seq<RunStep>): (ps: seq<OptionalPoint>)
    requires s.Inv()
    decreases |steps|
  {
    if steps == [] then []
    else
      (if steps[0].AckOne? && Looks(s, steps[0].number)
       then [Found(s.candidates, s.Packet(steps[0].number).value.totalBytesAcked)] else [])
      + Chosen(Stepped(s, steps[0]), steps[1..])
  }

  /** The candidate a step pushes, if any. */
  function PushedBy(s: State, step: RunStep): (ps: seq<AckPoint>)
    requires s.Inv()
  {
    if step.EndEvent? &&
        |AckEventEnd(s, step.bandwidthEstimate, step.isNewMaxBandwidth, step.round).0.candidates| > |s.candidates|
    then [s.recent.LessRecent()] else []
  }

  /** The candidates a search over everything pushed would find. */
  function ChosenFrom(all: seq<AckPoint>, s: State, steps: seq<RunStep>): (ps: seq<OptionalPoint>)
    requires s.Inv()
    decreases |steps|
  {
    if steps == [] then []
    else
      (if steps[0].AckOne? && Looks(s, steps[0].number)
       then [Found(all, s.Packet(steps[0].number).value.totalBytesAcked)] else [])
      + ChosenFrom(all + PushedBy(s, steps[0]), Stepped(s, steps[0]), steps[1..])
  }

  /** The packets that look for a candidate were sent with totals that never decrease. */
  ghost predicate TotalsInOrder(s: State, last: nat, steps: seq<RunStep>)
    requires s.Inv()
    decreases |steps|
  {
    steps != [] ==>
      if steps[0].AckOne? && Looks(s, steps[0].number) then
        && last <= s.Packet(steps[0].number).value.totalBytesAcked
        && TotalsInOrder(Stepped(s, steps[0]), s.Packet(steps[0].number).value.totalBytesAcked, steps[1..])
      else TotalsInOrder(Stepped(s, steps[0]), last, steps[1..])
  }

  lemma OtherKeepsPoints(s: State, e: Event)
    requires s.Inv() && Permitted(e)
    ensures var z := Step(s, e);
            && z.recent == s.recent && z.candidates == s.candidates && z.totalBytesAcked == s.totalBytesAcked
  {
    hide State.Inv, EmplacedOrSame;
  }

  /** What one acknowledgement does to the points. */
  lemma AckPoints(s: State, ackTime: nat, n: int)
    requires s.Inv()
    ensures var z := PacketAcked(s, ackTime, n).0;
            && z.totalBytesAcked >= s.totalBytesAcked
            && z.recent == (if s.overestimateAvoidance && s.Packet(n).Some?
                            then s.recent.Update(ackTime, z.totalBytesAcked) else s.recent)
            && z.candidates == if Looks(s, n) && s.candidates != []
                               then Pruned(s.candidates, s.Packet(n).value.totalBytesAcked) else s.candidates
  {
    hide PacketsOk, PointsOk, Pruned, Choice, BandwidthFromDelta;
    AckedKeepsInv(s, ackTime, n);
  }

  lemma EndPoints(s: State, bandwidthEstimate: nat, isNewMaxBandwidth: bool, round: nat)
    requires s.Inv()
    ensures var z := AckEventEnd(s, bandwidthEstimate, isNewMaxBandwidth, round).0;
            var pushed := PushedBy(s, EndEvent(bandwidthEstimate, isNewMaxBandwidth, round));
            && z.recent == s.recent && z.totalBytesAcked == s.totalBytesAcked
            && z.candidates == s.candidates + pushed
            && (pushed == [] || pushed == [s.recent.LessRecent()])
  {
    hide PacketsOk, PointsOk, TrackerUpdated;
  }

  lemma PushKeepsPoints(r: RecentAckPoints, cs: seq<AckPoint>, acked: nat)
    requires PointsOk(r, cs, acked)
    ensures PointsOk(r, cs + [r.LessRecent()], acked)
  {
  }

  lemma PointsAreSorted(r: RecentAckPoints, cs: seq<AckPoint>, acked: nat)
    requires PointsOk(r, cs, acked)
    ensures Sorted(cs)
  {
  }

  /** The full list after a step, with the pruned one a suffix of it. */
  lemma StepHides(s: State, step: RunStep, all: seq<AckPoint>, d: nat, last: nat, last': nat) returns (d': nat)
    requires s.Inv() && (step.Other? ==> Permitted(step.event))
    requires Hides(all, d, last) && d <= |all| && s.candidates == all[d..] && PointsOk(s.recent, all, s.totalBytesAcked)
    requires last <= last'
    requires step.AckOne? && Looks(s, step.number) ==> last' == s.Packet(step.number).value.totalBytesAcked
    ensures var z, all' := Stepped(s, step), all + PushedBy(s, step);
            && d' <= |all'| && Hides(all', d', last') && z.candidates == all'[d'..] &&
                PointsOk(z.recent, all', z.totalBytesAcked)
    ensures step.AckOne? && Looks(s, step.number) ==> Found(s.candidates, last') == Found(all, last')
  {
    hide State.Inv, PointsOk, Pruned, Choice, Sorted, Looks, PacketAcked, AckEventEnd, Step;
    d' := d;
    assert all + [] == all;
    match step
    case Lose(bytes) =>
    case Other(e) => OtherKeepsPoints(s, e);
    case EndEvent(bw, isNew, round) =>
      EndPoints(s, bw, isNew, round);
      if PushedBy(s, step) != [] {
        PushKeepsPoints(s.recent, all, s.totalBytesAcked);
        PointsAreSorted(s.recent, all + [s.recent.LessRecent()], s.totalBytesAcked);
        assert all[d..] + [s.recent.LessRecent()] == (all + [s.recent.LessRecent()])[d..];
      }
    case AckOne(ackTime, n) =>
      AckPoints(s, ackTime, n);
      var z := PacketAcked(s, ackTime, n).0;
      UpdateKeepsPoints(s.recent, all, s.totalBytesAcked, ackTime, z.totalBytesAcked);
      if Looks(s, n) && all != [] {
        d' := HidesMore(all, d, last, last');
      }
  }

  /** On every run between two clears in which the acknowledged packets' totals never
      decrease, the sampler finds the candidates that a search over everything pushed since
      the last clear would find. That pushed candidates are sorted follows from the
      sampler's invariant. */
  lemma {:induction false} PruningNeverShows(s: State, steps: seq<RunStep>, all: seq<AckPoint>, d: nat, last: nat)
    requires s.Inv() && forall step :: step in steps && step.Other? ==> Permitted(step.event)
    requires Hides(all, d, last) && d <= |all| && s.candidates == all[d..] && PointsOk(s.recent, all, s.totalBytesAcked)
    requires TotalsInOrder(s, last, steps)
    ensures Chosen(s, steps) == ChosenFrom(all, s, steps)
    decreases |steps|
  {
    hide State.Inv, PointsOk, Hides, Looks, Stepped, PushedBy, Found;
    if steps != [] {
      var step := steps[0];
      var last' := if step.AckOne? && Looks(s, step.number) then NextTotal(s, step.number) else last;
      var d' := StepHides(s, step, all, d, last, last');
      PruningNeverShows(Stepped(s, step), steps[1..], all + PushedBy(s, step), d', last');
    }
  }

  function NextTotal(s: State, n: int): nat
    requires Looks(s, n)
  {
    s.Packet(n).value.totalBytesAcked
  }

  /** In particular from a fresh start, when the candidates have just been cleared. */
  lemma PruningNeverShowsAfterClear(s: State, steps: seq<RunStep>)
    requires s.Inv() && forall step :: step in steps && step.Other? ==> Permitted(step.event)
    requires TotalsInOrder(s, 0, steps)
    ensures Chosen(s, steps) == ChosenFrom(s.candidates, s, steps)
  {
    PruningNeverShows(s, steps, s.candidates, 0, 0);
  }

  // ----- Ack heights over whole runs

  lemma TrackerStaysRoundless(t: Tracker, bandwidth: nat, isNewMaxBandwidth: bool, round: nat, lastSent: int,
                              lastAcked: int, ackTime: nat, bytesAcked: nat)
    requires t.threshold >= 1.0 && AH.Roundless(t.heights)
    ensures var t' := TrackerUpdated(t, bandwidth, isNewMaxBandwidth, round, lastSent, lastAcked, ackTime,
                bytesAcked).0;
            AH.Roundless(t'.heights) && t'.window == t.window
  {
    hide StartsEpoch, AH.Recalculated, AH.Updated, AH.BytesFromBandwidthAndTimeDelta;
    AH.RecalculatedIsTimeless(t.heights, t.window, bandwidth);
    var t1 := Reduced(t, bandwidth, isNewMaxBandwidth);
    var (t', extra) := TrackerUpdated(t, bandwidth, isNewMaxBandwidth, round, lastSent, lastAcked, ackTime, bytesAcked);
    if !StartsEpoch(t1, bandwidth, lastAcked, ackTime) {
      var x := AH.Entry(AH.Height(extra, t.epochBytes + bytesAcked, ackTime - t.epochStart, 0), round);
      AH.UpdateKeepsRounds(t1.heights, t.window, x);
    }
  }

  lemma {:induction false} AckAllKeepsTracker(s: State, ackTime: nat, acked: seq<int>, e: EventSample, rate: nat)
    requires s.Inv()
    ensures AckAll(s, ackTime, acked, e, rate).0.tracker == s.tracker
    decreases |acked|
  {
    if acked != [] {
      hide State.Inv, Choice, Pruned, BandwidthFromDelta;
      var (s', sample) := PacketAcked(s, ackTime, acked[0]);
      AckedKeepsInv(s, ackTime, acked[0]);
      if sample.stateAtSend.None? {
        AckAllKeepsTracker(s', ackTime, acked[1..], e, rate);
      } else {
        SampleStateIsOk(s, ackTime, acked[0]);
        AckAllKeepsTracker(s', ackTime, acked[1..], WithSample(e, sample, s'.totalBytesAcked),
                           if sample.sendRate != INF_BANDWIDTH then Max(rate, sample.sendRate) else rate);
      }
    }
  }

  lemma EventStaysRoundless(s: State, ackTime: nat, acked: seq<int>, lost: seq<Lost>, maxBandwidth: nat,
                            upperBound: nat, limitBySendRate: bool, round: nat)
    requires s.Inv() && AH.Roundless(s.tracker.heights)
    ensures var s' := CongestionEvent(s, ackTime, acked, lost, maxBandwidth, upperBound, limitBySendRate, round).0;
            AH.Roundless(s'.tracker.heights)
  {
    hide PacketsOk, PointsOk, AckAll, TrackerUpdated, AH.Roundless;
    var s1 := LoseAll(s, lost, None).0;
    LoseAllOnlyCounts(s, lost, None);
    if acked != [] {
      AckAllKeepsTracker(s1, ackTime, acked, NO_EVENT, 0);
      AckAllKeepsInv(s1, ackTime, acked, NO_EVENT, 0);
      var (s2, e, maxSendRate) := AckAll(s1, ackTime, acked, NO_EVENT, 0);
      var best := Max(maxBandwidth, e.sampleMaxBandwidth);
      var bw := Min(upperBound, if limitBySendRate then Max(best, maxSendRate) else best);
      if s2.totalBytesAcked > s2.totalBytesAckedAfterLastAckEvent {
        TrackerStaysRoundless(s2.tracker, bw, e.sampleMaxBandwidth > maxBandwidth, round, s2.lastSentPacket,
          s2.lastAckedPacket, s2.lastAckedPacketAckTime, s2.totalBytesAcked - s2.totalBytesAckedAfterLastAckEvent);
      }
    }
  }

  /** On every run on which the heights are not reset, no remembered event carries its round. */
  lemma {:induction false} HeightsCarryNoRound(states: seq<State>, es: seq<Event>, window: nat, i: nat)
    requires |states| == |es| + 1 && states[0] == NewState(window) && i <= |es|
    requires forall k :: 0 <= k < |es| ==> states[k].Inv() ==> states[k + 1] == Step(states[k], es[k])
    requires forall k :: 0 <= k < |es| ==> !es[k].ResetHeights?
    ensures AH.Roundless(states[i].tracker.heights)
  {
    hide State.Inv, CongestionEvent, PacketSent;
    if i > 0 {
      HeightsCarryNoRound(states, es, window, i - 1);
      RunsKeepInv(states, es, window, i - 1);
      var s, e := states[i - 1], es[i - 1];
      match e
      case Congestion(ackTime, acked, lost, maxBandwidth, upperBound, limitBySendRate, round) =>
        EventStaysRoundless(s, ackTime, acked, lost, maxBandwidth, upperBound, limitBySendRate, round);
      case Send(sentTime, number, bytes, bytesInFlight, isRetransmittable) =>
        SendingKeepsTracker(s, sentTime, number, bytes, bytesInFlight, isRetransmittable);
      case _ =>
    }
  }

  lemma SendingKeepsTracker(s: State, sentTime: nat, n: int, bytes: nat, bytesInFlight: int, isRetransmittable: bool)
    requires s.Inv() && n >= 0
    ensures PacketSent(s, sentTime, n, bytes, bytesInFlight, isRetransmittable).tracker == s.tracker
  {
    hide EmplacedOrSame;
  }

  /** So beyond the first rounds recalculating the heights for a new maximum bandwidth is of no
      use: an aggregation found in the same event is then the only height remembered. */
  lemma RecalculationIsWasted(t: Tracker, bandwidth: nat, round: nat, lastSent: int, lastAcked: int, ackTime: nat,
                              bytesAcked: nat)
    requires t.threshold >= 1.0 && AH.Roundless(t.heights) && t.reduceOnNewMax && round > t.window
    requires !StartsEpoch(t, bandwidth, lastAcked, ackTime)
    ensures var (t', extra) := TrackerUpdated(t, bandwidth, true, round, lastSent, lastAcked, ackTime, bytesAcked);
            && t'.heights.best == t'.heights.second == t'.heights.third
            && t'.heights.best.event.extraAcked == extra
  {
    hide AH.Recalculated, AH.Updated, AH.BytesFromBandwidthAndTimeDelta, KeepsUp;
    var (t', extra) := TrackerUpdated(t, bandwidth, true, round, lastSent, lastAcked, ackTime, bytesAcked);
    var x := AH.Entry(AH.Height(extra, t.epochBytes + bytesAcked, ackTime - t.epochStart, 0), round);
    AH.RecalculationIsForgottenIff(t.heights, t.window, bandwidth, x);
  }
}
